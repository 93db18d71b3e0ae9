/**
 * The comments panel of an event or assignment: loading the list, the
 * optimistic post (prepend, then reload or roll back) and the optimistic
 * delete (remove, then keep or restore), with who may delete what.
 */
module CommentsPanel {
  import opened Wrappers
  import opened Text
  import opened Schema
  import opened Lists

  /**
   * A comment as the panel holds it: `_id` (the store's key, or "tmp_..."
   * for an optimistic one), `id`, the author's user id, name, text, creation
   * time and the `__optimistic` flag. Absent fields are `None`.
   */
  datatype Comment = Comment(mongoId: Option<string>, id: Option<string>, userId: Option<int>, authorName: string,
                             text: string, createdAt: int, optimistic: bool)

  /** `c._id || c.id`: the `_id` when it is a non-empty string, else whatever `id` is. */
  function Key(c: Comment): Option<string> {
    if c.mongoId.Some? && c.mongoId.value != "" then c.mongoId else c.id
  }

  /** The signed-in user may delete `c`: an admin, or the comment's author. */
  predicate CanDelete(currentUser: Option<SessionUser>, c: Comment) {
    currentUser.Some? && (currentUser.value.role == "admin" || c.userId == Some(currentUser.value.id as int))
  }

  /** An entry not yet confirmed by the store: flagged, or its `_id` starts with "tmp_". */
  predicate IsTmp(c: Comment) {
    c.optimistic || (c.mongoId.Some? && StartsWith(c.mongoId.value, "tmp_"))
  }

  /** The delete button is offered only for a confirmed comment the user may delete. */
  predicate ShowDelete(currentUser: Option<SessionUser>, c: Comment) {
    CanDelete(currentUser, c) && !IsTmp(c)
  }

  /** What the comments request answered: a JSON value that is an array, another value, or a failure. */
  datatype LoadReply = LoadedArray(items: seq<Comment>) | LoadedOther | LoadFailed

  /** The list after `load` answers `reply`: the array, or empty for any other value; unchanged on a failure. */
  function Reloaded(current: seq<Comment>, reply: LoadReply): seq<Comment> {
    match reply
    case LoadedArray(items) => items
    case LoadedOther => []
    case LoadFailed => current
  }

  /** `error || fallback`: the server's message, or the panel's own when there is none. */
  function ErrorText(serverError: string, fallback: string): (r: string)
    ensures r != "" <== fallback != ""
    ensures serverError != "" ==> r == serverError
    ensures serverError == "" ==> r == fallback
  {
    if serverError != "" then serverError else fallback
  }

  function DigitChar(d: nat): char
    requires d < 10
  {
    ('0' as int + d) as char
  }

  /** The number a string of decimal digits denotes, most significant digit first. */
  function DigitsValue(s: string): int {
    if s == [] then 0 else 10 * DigitsValue(s[..|s| - 1]) + (s[|s| - 1] as int - '0' as int)
  }

  /** `String(n)` for a whole number: decimal digits that denote `n`. */
  function Decimal(n: nat): (r: string)
    ensures |r| > 0
    ensures forall i :: 0 <= i < |r| ==> '0' <= r[i] <= '9'
    ensures DigitsValue(r) == n
    decreases n
  {
    if n < 10 then [DigitChar(n)]
    else
      var r := Decimal(n / 10) + [DigitChar(n % 10)];
      assert r[..|r| - 1] == Decimal(n / 10);
      r
  }

  /** Posts made at different instants get different optimistic `_id`s. */
  lemma OptimisticIdsDistinct(m: nat, n: nat)
    requires m != n
    ensures "tmp_" + Decimal(m) != "tmp_" + Decimal(n)
  {
    var x, y := "tmp_" + Decimal(m), "tmp_" + Decimal(n);
    assert x[4..] == Decimal(m) && y[4..] == Decimal(n);
  }

  /** The entry `addComment` prepends: "tmp_" + `Date.now()`, the user's id and name ("Ju" without one), the trimmed text. */
  function OptimisticComment(currentUser: Option<SessionUser>, text: string, nowMs: nat): (c: Comment)
    ensures IsTmp(c) && c.mongoId.Some? && StartsWith(c.mongoId.value, "tmp_")
    ensures c.text == Trim(text) && c.authorName != ""
  {
    Comment(Some("tmp_" + Decimal(nowMs)), None,
            if currentUser.Some? then Some(currentUser.value.id as int) else None,
            if currentUser.Some? && currentUser.value.fullName != "" then currentUser.value.fullName else "Ju",
            Trim(text), nowMs, true)
  }

  /** The rollback of a failed post: drop the entries with the optimistic `_id`. */
  function WithoutId(mongoId: Option<string>): Comment -> bool {
    (x: Comment) => x.mongoId != mongoId
  }

  /** The optimistic delete of `c`: drop every entry with `c`'s key. */
  function WithoutKey(c: Comment): Comment -> bool {
    (x: Comment) => Key(x) != Key(c)
  }

  /** An optimistic entry is never offered for deletion, whoever is signed in. */
  lemma TmpNeverDeletable(currentUser: Option<SessionUser>, text: string, nowMs: nat)
    ensures !ShowDelete(currentUser, OptimisticComment(currentUser, text, nowMs))
  {
  }

  /**
   * A failed post takes back exactly what it added: when no entry already
   * had the optimistic `_id`, the list is the one before the post.
   */
  lemma {:induction false} RollbackRestores(prev: seq<Comment>, optimistic: Comment)
    requires forall x :: x in prev ==> x.mongoId != optimistic.mongoId
    ensures Filter([optimistic] + prev, WithoutId(optimistic.mongoId)) == prev
  {
    assert ([optimistic] + prev)[1..] == prev;
    FilterAll(prev, WithoutId(optimistic.mongoId));
  }

  /** A failed post removes only the entries carrying the optimistic `_id`; every other entry stays. */
  lemma RollbackKeepsOthers(prev: seq<Comment>, optimistic: Comment)
    ensures forall x :: x in Filter([optimistic] + prev, WithoutId(optimistic.mongoId)) <==>
      x in prev && x.mongoId != optimistic.mongoId
  {
  }

  /** The panel's state; `currentUser` is `getUser()` when it rendered. */
  class Panel {
    var comments: seq<Comment>
    var text: string
    var posting: bool
    var loading: bool
    var err: string
    const currentUser: Option<SessionUser>

    constructor (currentUser: Option<SessionUser>)
      ensures this.currentUser == currentUser
      ensures comments == [] && text == "" && !posting && loading && err == ""
    {
      this.currentUser := currentUser;
      comments, text, posting, loading, err := [], "", false, true, "";
    }

    /** `load`: the list becomes the array answered, or empty for any other value; a failure keeps it and says so. */
    method Load(reply: LoadReply)
      modifies this`comments, this`loading, this`err
      ensures !loading && comments == Reloaded(old(comments), reply)
      ensures err == if reply.LoadFailed? then "Nuk u ngarkuan komentet." else ""
    {
      loading := true;
      err := "";
      match reply {
        case LoadedArray(items) => comments := items;
        case LoadedOther => comments := [];
        case LoadFailed => err := "Nuk u ngarkuan komentet.";
      }
      loading := false;
    }

    /**
     * `addComment` at time `nowMs`: nothing happens for a blank text or while
     * a post is in flight. Otherwise the optimistic entry is shown first
     * (`shown`); if the post succeeds (`postError` is `None`) the text is
     * cleared and the list reloaded, else only that entry is taken out and
     * the error shown.
     */
    method AddComment(nowMs: nat, postError: Option<string>, reload: LoadReply) returns (shown: seq<Comment>)
      modifies this`comments, this`loading, this`err, this`text, this`posting
      ensures IsBlank(old(text)) || old(posting) ==>
        && shown == comments == old(comments) && text == old(text) && posting == old(posting)
        && err == old(err) && loading == old(loading)
      ensures !IsBlank(old(text)) && !old(posting) ==>
        var optimistic := OptimisticComment(currentUser, old(text), nowMs);
        && shown == [optimistic] + old(comments)
        && !posting
        && (postError.None? ==>
              && text == "" && !loading && comments == Reloaded(shown, reload)
              && err == (if reload.LoadFailed? then "Nuk u ngarkuan komentet." else ""))
        && (postError.Some? ==>
              && text == old(text) && loading == old(loading)
              && comments == Filter(shown, WithoutId(optimistic.mongoId))
              && err == ErrorText(postError.value, "Shtimi i komentit dështoi."))
    {
      if IsBlank(text) || posting {
        return comments;
      }
      var optimistic := OptimisticComment(currentUser, text, nowMs);
      posting := true;
      err := "";
      comments := [optimistic] + comments;
      shown := comments;
      SettlePost(optimistic, postError, reload);
    }

    /**
     * The end of `addComment` once `optimistic` is shown: on success the text
     * is cleared and the list reloaded, on failure the entry is taken out
     * and the error shown; either way posting ends.
     */
    method SettlePost(optimistic: Comment, postError: Option<string>, reload: LoadReply)
      modifies this`comments, this`loading, this`err, this`text, this`posting
      ensures !posting
      ensures postError.None? ==>
        && text == "" && !loading && comments == Reloaded(old(comments), reload)
        && err == (if reload.LoadFailed? then "Nuk u ngarkuan komentet." else "")
      ensures postError.Some? ==>
        && text == old(text) && loading == old(loading)
        && comments == Filter(old(comments), WithoutId(optimistic.mongoId))
        && err == ErrorText(postError.value, "Shtimi i komentit dështoi.")
    {
      if postError.None? {
        text := "";
        Load(reload);
      } else {
        err := ErrorText(postError.value, "Shtimi i komentit dështoi.");
        comments := Filter(comments, WithoutId(optimistic.mongoId));
      }
      posting := false;
    }

    /**
     * `deleteComment(c)`: nothing but clearing the error unless the user may
     * delete `c`. Otherwise the entries with `c`'s key disappear (`shown`)
     * and, if the request fails, the previous list comes back.
     */
    method DeleteComment(c: Comment, deleteError: Option<string>) returns (shown: seq<Comment>)
      modifies this`comments, this`err
      ensures !CanDelete(currentUser, c) ==> shown == comments == old(comments) && err == ""
      ensures CanDelete(currentUser, c) ==>
        && shown == Filter(old(comments), WithoutKey(c))
        && (deleteError.None? ==> comments == shown && err == "")
        && (deleteError.Some? ==> comments == old(comments) && err == ErrorText(deleteError.value, "Fshirja dështoi."))
    {
      err := "";
      if !CanDelete(currentUser, c) {
        return comments;
      }
      var prev := comments;
      comments := Filter(comments, WithoutKey(c));
      shown := comments;
      if deleteError.Some? {
        err := ErrorText(deleteError.value, "Fshirja dështoi.");
        comments := prev;
      }
    }
  }

  /** The optimistic delete keeps exactly the entries whose key differs from the deleted one's. */
  lemma DeleteRemovesExactlyKey(comments: seq<Comment>, c: Comment)
    ensures forall x :: x in Filter(comments, WithoutKey(c)) <==> x in comments && Key(x) != Key(c)
    ensures c in comments ==> c !in Filter(comments, WithoutKey(c))
  {
  }
}
