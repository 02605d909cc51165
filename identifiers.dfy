/** Document identifiers. Every user and event carries a database ObjectId,
    written as 24 lower-case hexadecimal digits; a path parameter is cast to
    one and the cast fails (a `CastError` of kind 'ObjectId') on anything that
    is not 24 hexadecimal digits. */
module Identifiers {
  import opened Wrappers
  import Text

  predicate IsHexDigit(c: char) {
    '0' <= c <= '9' || 'a' <= c <= 'f' || 'A' <= c <= 'F'
  }

  predicate IsLowerHexDigit(c: char) {
    '0' <= c <= '9' || 'a' <= c <= 'f'
  }

  predicate IsObjectIdText(s: string) {
    |s| == 24 && forall i :: 0 <= i < |s| ==> IsLowerHexDigit(s[i])
  }

  type ObjectId = s: string | IsObjectIdText(s) witness "000000000000000000000000"

  /** Casting a path parameter to an ObjectId: hexadecimal digits of either
      case are accepted and the id is their lower-case spelling. */
  function CastObjectId(raw: string): (r: Option<ObjectId>)
    ensures r.Some? <==> |raw| == 24 && forall i :: 0 <= i < |raw| ==> IsHexDigit(raw[i])
    ensures r.Some? ==> r.value == Text.ToLower(raw)
  {
    if |raw| == 24 && forall i :: 0 <= i < |raw| ==> IsHexDigit(raw[i]) then
      var id := Text.ToLower(raw);
      Text.ToLowerChars(raw);
      assert forall i :: 0 <= i < |id| ==> IsLowerHexDigit(id[i]);
      Some(id)
    else
      None
  }

  /** An id's own text casts back to that id, so an id returned in a response
      addresses the same document when sent back. */
  lemma CastOwnText(id: ObjectId)
    ensures CastObjectId(id) == Some(id)
  {
    assert forall i :: 0 <= i < |id| ==> IsHexDigit(id[i]);
    Text.ToLowerChars(id);
    assert Text.ToLower(id) == id;
  }

  /** The cast ignores the case of the hexadecimal digits. */
  lemma CastIgnoresCase(raw: string)
    ensures CastObjectId(Text.ToLower(raw)) == CastObjectId(raw)
  {
    var low := Text.ToLower(raw);
    Text.ToLowerChars(raw);
    assert forall i :: 0 <= i < |raw| ==> (IsHexDigit(low[i]) <==> IsHexDigit(raw[i]));
    Text.ToLowerIdempotent(raw);
  }
}
