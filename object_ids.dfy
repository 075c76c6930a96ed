/** MongoDB ObjectIds as the handlers see them: a 12-byte value stored in
    each record, rendered by `toString()` as 24 lower-case hex digits, and
    accepted from a path parameter by `mongoose.Types.ObjectId.isValid`
    followed by the query's cast from a hex string. */
module ObjectIds {
  import opened Wrappers
  import opened Strings

  function Pow16(k: nat): (p: nat)
    ensures p >= 1
  {
    if k == 0 then 1 else 16 * Pow16(k - 1)
  }

  /** Number of hex digits of an ObjectId (12 bytes). */
  const HexLength: nat := 24

  /** An ObjectId is a 96-bit value. */
  type ObjectId = n: nat | n < Pow16(24)

  /** The lower-case hex digit for a value below 16. */
  function HexDigit(d: nat): (c: char)
    requires d < 16
    ensures IsHexChar(c) && !('A' <= c <= 'F') && HexVal(c) == d
  {
    if d < 10 then ('0' as int + d) as char else ('a' as int + d - 10) as char
  }

  predicate IsHexChar(c: char) {
    ('0' <= c <= '9') || ('a' <= c <= 'f') || ('A' <= c <= 'F')
  }

  /** Value of one hex digit, upper or lower case. */
  function HexVal(c: char): (v: nat)
    requires IsHexChar(c)
    ensures v < 16
  {
    if '0' <= c <= '9' then c as int - '0' as int
    else if 'a' <= c <= 'f' then c as int - 'a' as int + 10
    else c as int - 'A' as int + 10
  }

  predicate AllHex(s: string) {
    forall i :: 0 <= i < |s| ==> IsHexChar(s[i])
  }

  /** Big-endian value of a hex string. */
  function HexValue(s: string): (v: nat)
    requires AllHex(s)
    ensures v < Pow16(|s|)
  {
    if s == [] then 0 else HexValue(s[..|s| - 1]) * 16 + HexVal(s[|s| - 1])
  }

  /** The `k` lowest hex digits of `n`, lower case, most significant first. */
  function ToHex(n: nat, k: nat): (s: string)
    ensures |s| == k && AllHex(s)
    ensures forall i :: 0 <= i < k ==> !('A' <= s[i] <= 'F')
  {
    if k == 0 then "" else ToHex(n / 16, k - 1) + [HexDigit(n % 16)]
  }

  /** `id.toString()`: 24 lower-case hex digits. */
  function ObjectIdString(id: ObjectId): (s: string)
    ensures |s| == HexLength && AllHex(s) && IsLower(s)
  {
    ToHex(id, HexLength)
  }

  /** `mongoose.Types.ObjectId.isValid(s)` for string input: exactly 24 hex
      digits, either case. */
  predicate IsValidObjectId(s: string) {
    |s| == HexLength && AllHex(s)
  }

  /** The path parameter after the validity check and the cast a query applies:
      `None` for a string the handlers answer with 400. */
  function CastObjectId(s: string): (r: Option<ObjectId>)
    ensures r.Some? <==> IsValidObjectId(s)
  {
    if IsValidObjectId(s) then Some(HexValue(s)) else None
  }

  lemma {:induction false} HexValueOfToHex(n: nat, k: nat)
    requires n < Pow16(k)
    ensures HexValue(ToHex(n, k)) == n
  {
    if k > 0 {
      var s := ToHex(n, k);
      assert s[..k - 1] == ToHex(n / 16, k - 1);
      HexValueOfToHex(n / 16, k - 1);
    }
  }

  /** Casting the string an id prints as gives back the id. */
  lemma CastOfString(id: ObjectId)
    ensures CastObjectId(ObjectIdString(id)) == Some(id)
  {
    HexValueOfToHex(id, HexLength);
  }

  /** Distinct ids print as distinct strings. */
  lemma StringInjective(a: ObjectId, b: ObjectId)
    requires ObjectIdString(a) == ObjectIdString(b)
    ensures a == b
  {
    CastOfString(a);
    CastOfString(b);
  }

  /** Upper-casing the hex letters of a string. */
  function UpperHexChar(c: char): char {
    if 'a' <= c <= 'f' then (c as int - 32) as char else c
  }

  function ToUpperHex(s: string): (r: string)
    ensures |r| == |s|
    ensures forall i :: 0 <= i < |s| ==> r[i] == UpperHexChar(s[i])
  {
    seq(|s|, i requires 0 <= i < |s| => UpperHexChar(s[i]))
  }

  lemma {:induction false} HexValueUpper(s: string)
    requires AllHex(s)
    ensures AllHex(ToUpperHex(s)) && HexValue(ToUpperHex(s)) == HexValue(s)
  {
    if s != [] {
      assert ToUpperHex(s)[..|s| - 1] == ToUpperHex(s[..|s| - 1]);
      HexValueUpper(s[..|s| - 1]);
    }
  }

  /** The upper-case spelling of an id that has a hex letter is a different
      string that casts to the same id. */
  lemma UpperSpellingSameId(id: ObjectId, i: nat)
    requires i < HexLength && 'a' <= ObjectIdString(id)[i] <= 'f'
    ensures CastObjectId(ToUpperHex(ObjectIdString(id))) == Some(id)
    ensures ToUpperHex(ObjectIdString(id)) != ObjectIdString(id)
  {
    var s := ObjectIdString(id);
    HexValueUpper(s);
    CastOfString(id);
    assert ToUpperHex(s)[i] != s[i];
  }
}
