/** Shared vocabulary of the handlers: optional values, handler results with
    an HTTP status code on failure, and the shape test that the handlers
    apply to identifiers taken from a request. */
module Base {

  datatype Option<+T> = None | Some(value: T)

  /** What a handler answers: a value, or the status code of the error it
      throws (or of the error response it sends). */
  datatype Result<+T> = Ok(value: T) | Err(status: int)

  const BadRequest := 400
  const Forbidden := 403
  const NotFound := 404
  const ServerError := 500

  /** Identifiers are opaque strings; records carry the one the store
      assigned to them. */
  type Id = string

  predicate IsHexDigit(c: char) {
    ('0' <= c <= '9') || ('a' <= c <= 'f') || ('A' <= c <= 'F')
  }

  /** The shape accepted for an object id: 24 hexadecimal digits. */
  predicate ValidObjectId(s: string) {
    |s| == 24 && forall i :: 0 <= i < |s| ==> IsHexDigit(s[i])
  }

  /** A hexadecimal digit as an object id prints it: in lower case. */
  function LowerHex(c: char): char {
    if 'A' <= c <= 'F' then (c as int - 'A' as int + 'a' as int) as char else c
  }

  /** The id a store query reads from an identifier taken from a request.
      The driver casts a well-formed id to the object id it spells, and an
      object id prints in lower-case hexadecimal; so two spellings that
      differ only in the case of their letters name the same record. The ids
      the store holds, and the signed-in caller's id, are in this form. */
  function Canon(s: string): (r: Id)
    ensures |r| == |s|
    ensures forall i :: 0 <= i < |s| ==> r[i] == LowerHex(s[i])
  {
    seq(|s|, i requires 0 <= i < |s| => LowerHex(s[i]))
  }

  predicate IsLowerHexDigit(c: char) {
    ('0' <= c <= '9') || ('a' <= c <= 'f')
  }

  /** Casting keeps an id well formed, gives lower-case digits only, and a
      second cast changes nothing. */
  lemma CanonOfValid(s: string)
    requires ValidObjectId(s)
    ensures ValidObjectId(Canon(s))
    ensures forall i :: 0 <= i < 24 ==> IsLowerHexDigit(Canon(s)[i])
    ensures Canon(Canon(s)) == Canon(s)
  {
  }

  /** An id already in lower case is its own cast. */
  lemma {:induction false} CanonOfLower(s: string)
    requires forall i :: 0 <= i < |s| ==> IsLowerHexDigit(s[i])
    ensures Canon(s) == s
  {
    forall i | 0 <= i < |s| ensures Canon(s)[i] == s[i] {
      assert IsLowerHexDigit(s[i]);
    }
  }

  /** Two well-formed ids cast to the same id exactly when they agree digit
      by digit up to the case of the letters. */
  lemma SameObjectId(a: string, b: string)
    requires ValidObjectId(a) && ValidObjectId(b)
    ensures Canon(a) == Canon(b) <==> forall i :: 0 <= i < 24 ==> LowerHex(a[i]) == LowerHex(b[i])
  {
    if forall i :: 0 <= i < 24 ==> LowerHex(a[i]) == LowerHex(b[i]) {
      assert forall i :: 0 <= i < 24 ==> Canon(a)[i] == Canon(b)[i];
    }
  }

  predicate IsSpace(c: char) {
    c == ' ' || c == '\t' || c == '\n' || c == '\r'
  }

  /** True when `s.trim()` is empty, so `!s.trim()` holds. */
  predicate IsBlank(s: string) {
    forall i :: 0 <= i < |s| ==> IsSpace(s[i])
  }

  lemma BlankIsNotValid(s: string)
    requires IsBlank(s)
    ensures !ValidObjectId(s)
  {
    if |s| == 24 {
      assert IsSpace(s[0]) && !IsHexDigit(s[0]);
    }
  }
}
