/** `hash_value(hashkey, field_value)`: the hex SHA-256 digest of the text
    `"{hashkey}:{field_value}"`.

    SHA-256 (FIPS 180-4) and the UTF-8 encoding ahead of it are not modelled:
    the composition is a parameter `sha`, a function from texts to 64-character
    lowercase hexadecimal strings. What is modelled is the text that is hashed.
 */
module Hashing {
  import opened PyValues

  /** `n` zeros. */
  function Zeros(n: nat): (r: string)
    ensures |r| == n
    ensures forall i :: 0 <= i < n ==> r[i] == '0'
  {
    if n == 0 then "" else Zeros(n - 1) + "0"
  }

  predicate IsLowerHex(s: string) {
    forall i :: 0 <= i < |s| ==> s[i] in "0123456789abcdef"
  }

  /** What `hexdigest()` of a SHA-256 hash returns: 32 bytes, two lowercase
      hexadecimal digits each. */
  type HexDigest = s: string | |s| == 64 && IsLowerHex(s) witness Zeros(64)

  /** The formatted text `f"{hashkey}:{field_value}"`. */
  function DigestInput(hashkey: Atom, fieldValue: Atom): (t: string)
    ensures |t| == |ToStr(hashkey)| + 1 + |ToStr(fieldValue)|
    ensures t[..|ToStr(hashkey)|] == ToStr(hashkey)
    ensures t[|ToStr(hashkey)|] == ':'
    ensures t[|ToStr(hashkey)| + 1..] == ToStr(fieldValue)
  {
    ToStr(hashkey) + ":" + ToStr(fieldValue)
  }

  function HashValue(sha: string -> HexDigest, hashkey: Atom, fieldValue: Atom): (h: HexDigest)
    ensures |h| == 64 && IsLowerHex(h)
  {
    sha(DigestInput(hashkey, fieldValue))
  }

  /** The digest depends on nothing but the hashed text: equal texts, equal digests. */
  lemma SameTextSameHash(sha: string -> HexDigest, k1: Atom, v1: Atom, k2: Atom, v2: Atom)
    requires DigestInput(k1, v1) == DigestInput(k2, v2)
    ensures HashValue(sha, k1, v1) == HashValue(sha, k2, v2)
  {
  }

  /** When neither key's text contains `:`, the hashed text determines the
      texts of both the key and the value. */
  lemma DigestInputInjective(k1: Atom, v1: Atom, k2: Atom, v2: Atom)
    requires ':' !in ToStr(k1) && ':' !in ToStr(k2)
    requires DigestInput(k1, v1) == DigestInput(k2, v2)
    ensures ToStr(k1) == ToStr(k2) && ToStr(v1) == ToStr(v2)
  {
    var t := DigestInput(k1, v1);
    var a, b := ToStr(k1), ToStr(k2);
    ColonPosition(t, a, ToStr(v1));
    ColonPosition(t, b, ToStr(v2));
    assert a == t[..|a|] == b;
  }

  /** When `a` has no `:`, the first `:` of `a + ":" + x` follows `a`. */
  lemma ColonPosition(t: string, a: string, x: string)
    requires ':' !in a && t == a + ":" + x
    ensures t[|a|] == ':' && forall j :: 0 <= j < |a| ==> t[j] != ':'
  {
    forall j | 0 <= j < |a| ensures t[j] != ':' {
      assert t[j] == a[j] && a[j] in a;
    }
  }

  /** A key containing `:` lets two different key/value pairs hash the same. */
  lemma ColonInKeyCollides(sha: string -> HexDigest, a: string, b: string, c: string)
    ensures HashValue(sha, Str(a + ":" + b), Str(c)) == HashValue(sha, Str(a), Str(b + ":" + c))
  {
    assert a + ":" + b + ":" + c == a + ":" + (b + ":" + c);
  }

  /** No type tag is hashed: an integer and the string of its digits hash alike. */
  lemma IntAndDecimalCollide(sha: string -> HexDigest, hashkey: Atom, n: int)
    ensures HashValue(sha, hashkey, Int(n)) == HashValue(sha, hashkey, Str(IntToDecimal(n)))
  {
  }

  /** A missing key (`None`) is formatted as the text `None`. */
  lemma MissingKeyIsNoneText(sha: string -> HexDigest, fieldValue: Atom)
    ensures HashValue(sha, Null, fieldValue) == HashValue(sha, Str("None"), fieldValue)
  {
  }

  /** Under one key, distinct integers give distinct hashed texts. */
  lemma DistinctIntsDistinctTexts(hashkey: Atom, a: int, b: int)
    requires DigestInput(hashkey, Int(a)) == DigestInput(hashkey, Int(b))
    ensures a == b
  {
    var t, n := DigestInput(hashkey, Int(a)), |ToStr(hashkey)| + 1;
    assert IntToDecimal(a) == t[n..] == IntToDecimal(b);
    IntToDecimalInjective(a, b);
  }
}
