/** The Python values the utilities handle.

    Python is dynamically typed; the functions of the module branch on the
    run-time type of a value (`isinstance(v, MutableMapping)`, `type(v) ==
    list`), so a value is a tagged variant here. A mapping is an ordered list of
    key/value pairs (see module Dicts) with string keys.
 */
module PyValues {
  import opened Dicts

  /** Scalars: `str`, `int`, `bool` and `None`. */
  datatype Atom = Str(s: string) | Int(i: int) | Bool(b: bool) | Null

  datatype Value =
    | Scalar(atom: Atom)
    | List(items: seq<Value>)
    | Map(entries: seq<(string, Value)>)

  /** Python truthiness (`if v:`): empty strings and containers, zero, `False`
      and `None` are false. */
  predicate Truthy(v: Value) {
    match v
    case Scalar(Str(s)) => s != ""
    case Scalar(Int(i)) => i != 0
    case Scalar(Bool(b)) => b
    case Scalar(Null) => false
    case List(xs) => xs != []
    case Map(e) => e != []
  }

  /** Python `d.get(k)` on a mapping: `None` when the key is absent. */
  function Get(d: seq<(string, Value)>, k: string): (r: Value)
    ensures Lookup(d, k).None? ==> r == Scalar(Null)
    ensures Lookup(d, k).Some? ==> (k, r) in d
  {
    match Lookup(d, k)
    case Some(v) => v
    case None => Scalar(Null)
  }

  /** Python `w in s` on strings: `w` occurs in `s` at some position, as a
      literal substring, with no case folding. */
  predicate Contains(s: string, w: string) {
    exists i :: 0 <= i <= |s| && OccursAt(s, w, i)
  }

  /** `w` stands in `s` from position `i` on. */
  predicate OccursAt(s: string, w: string, i: nat) {
    i + |w| <= |s| && s[i..i + |w|] == w
  }

  /** Python `type(v).__name__`. */
  function TypeName(v: Value): string {
    match v
    case Scalar(Str(_)) => "str"
    case Scalar(Int(_)) => "int"
    case Scalar(Bool(_)) => "bool"
    case Scalar(Null) => "NoneType"
    case List(_) => "list"
    case Map(_) => "dict"
  }

  /** The decimal digit for `d < 10`. */
  function DigitChar(d: nat): char
    requires d < 10
  {
    "0123456789"[d]
  }

  /** Python `str(n)` for a natural number: its decimal digits, no leading zero. */
  function NatToDecimal(n: nat): (r: string)
    ensures |r| >= 1
    ensures forall i :: 0 <= i < |r| ==> '0' <= r[i] <= '9'
    ensures n > 0 ==> r[0] != '0'
  {
    if n < 10 then [DigitChar(n)] else NatToDecimal(n / 10) + [DigitChar(n % 10)]
  }

  /** The number a string of decimal digits denotes (its reverse reading). */
  function ParseDecimal(s: string): nat
    requires forall i :: 0 <= i < |s| ==> '0' <= s[i] <= '9'
  {
    if s == [] then 0
    else ParseDecimal(s[..|s| - 1]) * 10 + (s[|s| - 1] as int - '0' as int)
  }

  /** Reading back the decimal form of `n` gives `n`. */
  lemma {:induction false} DecimalRoundTrip(n: nat)
    ensures ParseDecimal(NatToDecimal(n)) == n
  {
    var r := NatToDecimal(n);
    if n >= 10 {
      DecimalRoundTrip(n / 10);
      assert r[..|r| - 1] == NatToDecimal(n / 10);
    }
  }

  /** Python `str(i)` for an integer. */
  function IntToDecimal(i: int): string {
    if i < 0 then "-" + NatToDecimal(-i) else NatToDecimal(i)
  }

  /** Python `str(a)` for a scalar. */
  function ToStr(a: Atom): string {
    match a
    case Str(s) => s
    case Int(i) => IntToDecimal(i)
    case Bool(b) => if b then "True" else "False"
    case Null => "None"
  }

  /** Distinct naturals print differently. */
  lemma NatToDecimalInjective(a: nat, b: nat)
    requires NatToDecimal(a) == NatToDecimal(b)
    ensures a == b
  {
    DecimalRoundTrip(a);
    DecimalRoundTrip(b);
  }

  /** Distinct integers print differently. */
  lemma IntToDecimalInjective(a: int, b: int)
    requires IntToDecimal(a) == IntToDecimal(b)
    ensures a == b
  {
    var sa, sb := IntToDecimal(a), IntToDecimal(b);
    if a < 0 && b < 0 {
      assert sa[1..] == NatToDecimal(-a) && sb[1..] == NatToDecimal(-b);
      NatToDecimalInjective(-a, -b);
    } else if a >= 0 && b >= 0 {
      NatToDecimalInjective(a, b);
    }
  }

  /** Sizes that the recursive functions over nested mappings decrease. */
  function ValueSize(v: Value): (r: nat)
    ensures r >= 1
    decreases v
  {
    match v
    case Map(e) => 1 + SizeWithin(e, v)
    case _ => 1
  }

  /** The summed sizes of entries `d`, all of which sit inside the mapping `whole`. */
  function SizeWithin(d: seq<(string, Value)>, ghost whole: Value): nat
    requires whole.Map? && forall i :: 0 <= i < |d| ==> d[i] in whole.entries
    decreases whole, |d|
  {
    if d == [] then 0 else SizeWithin(d[..|d| - 1], whole) + ValueSize(d[|d| - 1].1)
  }

  lemma {:induction false} SizeWithinIndependent(d: seq<(string, Value)>, w1: Value, w2: Value)
    requires w1.Map? && forall i :: 0 <= i < |d| ==> d[i] in w1.entries
    requires w2.Map? && forall i :: 0 <= i < |d| ==> d[i] in w2.entries
    ensures SizeWithin(d, w1) == SizeWithin(d, w2)
  {
    if d != [] {
      SizeWithinIndependent(d[..|d| - 1], w1, w2);
    }
  }

  function EntriesSize(d: seq<(string, Value)>): nat {
    SizeWithin(d, Map(d))
  }

  /** Removing the last entry of a mapping makes it smaller by that entry's size. */
  lemma EntriesSizeSnoc(d: seq<(string, Value)>)
    requires d != []
    ensures EntriesSize(d) == EntriesSize(d[..|d| - 1]) + ValueSize(d[|d| - 1].1)
  {
    SizeWithinIndependent(d[..|d| - 1], Map(d), Map(d[..|d| - 1]));
  }

  /** A nested mapping is smaller than the value holding it. */
  lemma NestedSmaller(v: Value)
    requires v.Map?
    ensures EntriesSize(v.entries) < ValueSize(v)
  {
  }

  /** Every entry of a mapping is smaller than the mapping. */
  lemma {:induction false} EntrySmaller(d: seq<(string, Value)>, i: nat)
    requires i < |d|
    ensures ValueSize(d[i].1) <= EntriesSize(d)
  {
    EntriesSizeSnoc(d);
    if i < |d| - 1 {
      EntrySmaller(d[..|d| - 1], i);
    }
  }
}
