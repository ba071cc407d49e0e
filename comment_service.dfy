/** `CommentService.add`: three guards on the visitor's input, checked in a
    fixed order with fixed error codes, then one insert. */
module CommentServices {
  import opened Common
  import opened Text
  import opened Comments

  const UserCantBeEmpty: string := "USER_CANT_BE_EMPTY"
  const IpCantBeEmpty: string := "IP_CANT_BE_EMPTY"
  const CommentCantBeEmpty: string := "COMMENT_CANT_BE_EMPTY"
  const UnknownError: string := "UNKNOWN_ERROR"

  /** The pair `add` returns: `(True, comment_id)` or `(False, code)`. */
  datatype AddResult = Added(id: int) | Rejected(code: string)

  /** The guard chain of `add`: the code of the first blank field among user,
      ip and comment, in that order, or `None` when all three hold text. */
  function Validate(ip: Option<string>, user: Option<string>, comment: Option<string>): (r: Option<string>)
    ensures r == Some(UserCantBeEmpty) <==> IsBlank(user)
    ensures r == Some(IpCantBeEmpty) <==> !IsBlank(user) && IsBlank(ip)
    ensures r == Some(CommentCantBeEmpty) <==> !IsBlank(user) && !IsBlank(ip) && IsBlank(comment)
    ensures r.None? <==> !IsBlank(user) && !IsBlank(ip) && !IsBlank(comment)
  {
    if IsBlank(user) then Some(UserCantBeEmpty)
    else if IsBlank(ip) then Some(IpCantBeEmpty)
    else if IsBlank(comment) then Some(CommentCantBeEmpty)
    else None
  }

  /** Surrounding a field with spaces never changes the verdict: the guards
      look at the stripped text only. */
  lemma ValidateIgnoresPadding(ip: Option<string>, user: string, comment: Option<string>, before: string, after: string)
    requires AllSpace(before) && AllSpace(after)
    ensures Validate(ip, Some(before + user + after), comment) == Validate(ip, Some(user), comment)
  {
    BlankIgnoresPadding(before, user, after);
  }

  /** Padding a string with spaces changes neither `not s.strip()` nor its
      negation. */
  lemma BlankIgnoresPadding(before: string, s: string, after: string)
    requires AllSpace(before) && AllSpace(after)
    ensures IsBlank(Some(before + s + after)) == IsBlank(Some(s))
  {
    var t := before + s + after;
    StripEmptyIffAllSpace(t);
    StripEmptyIffAllSpace(s);
    if AllSpace(s) {
      forall i | 0 <= i < |t| ensures IsSpace(t[i]) {
        if i < |before| {
          assert t[i] == before[i];
        } else if i < |before| + |s| {
          assert t[i] == s[i - |before|];
        } else {
          assert t[i] == after[i - |before| - |s|];
        }
      }
    } else {
      var k :| 0 <= k < |s| && !IsSpace(s[k]);
      assert t[|before| + k] == s[k];
    }
  }

  /** The service, over its comments table. */
  class CommentService {
    const model: CommentModel

    constructor (model: CommentModel)
      ensures this.model == model
    {
      this.model := model;
    }

    /** `add(ip, user, comment)`: a rejected comment stores nothing; an
        accepted one is stored exactly as given, unstripped. */
    method Add(ip: Option<string>, user: Option<string>, comment: Option<string>, now: int) returns (r: AddResult)
      requires model.Valid()
      modifies model
      ensures model.Valid()
      ensures Validate(ip, user, comment).Some? ==>
                && r == Rejected(Validate(ip, user, comment).value)
                && model.rows == old(model.rows) && model.nextId == old(model.nextId)
      ensures Validate(ip, user, comment).None? ==>
                && r == Added(old(model.nextId))
                && model.rows == old(model.rows) + [CommentRow(old(model.nextId), ip.value, user.value, comment.value, now)]
                && model.nextId == old(model.nextId) + 1
      ensures r != Rejected(UnknownError)
    {
      if IsBlank(user) {
        return Rejected(UserCantBeEmpty);
      }
      if IsBlank(ip) {
        return Rejected(IpCantBeEmpty);
      }
      if IsBlank(comment) {
        return Rejected(CommentCantBeEmpty);
      }
      var commentId := model.Add(ip.value, user.value, comment.value, now);
      match commentId
      case None =>
        r := Rejected(UnknownError);
      case Some(id) =>
        r := Added(id);
    }
  }
}
