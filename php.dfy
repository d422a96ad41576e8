/** PHP values as the plugin sees them after json_decode / YAML parsing:
    scalars and ordered arrays (association lists), together with the
    PHP 7.4 rules the registry code relies on: empty(), isset(), array-key
    conversion, string conversion and the string-offset read. */
module Php {

  datatype Option<T> = None | Some(value: T) {
    function GetOr(default: T): T {
      match this
      case Some(v) => v
      case None => default
    }
  }

  /** An array key after PHP's conversion: integer or (non-integer) string. */
  datatype Key = IntKey(i: int) | StrKey(s: string)

  /** A PHP value. Arrays keep their insertion order; floats are not modelled. */
  datatype Value =
    | Null
    | Bool(b: bool)
    | Int(i: int)
    | Str(s: string)
    | Arr(entries: seq<Entry>)

  datatype Entry = Entry(key: Key, val: Value)

  const MaxInt: int := 0x7FFF_FFFF_FFFF_FFFF
  const MinInt: int := -0x8000_0000_0000_0000

  /** The key of a literal, non-numeric string such as 'type' or 'fields'. */
  function K(name: string): Key { StrKey(name) }

  // ---------------------------------------------------------------------
  // Ordered arrays

  /** `$a[$k]`: the value stored under k, looked up from the front. */
  function Find(a: seq<Entry>, k: Key): Option<Value> {
    if |a| == 0 then None
    else if a[0].key == k then Some(a[0].val)
    else Find(a[1..], k)
  }

  /** Find answers None exactly when no entry has the key, and otherwise
      the value of the first entry that has it. */
  lemma {:induction false} FindFirst(a: seq<Entry>, k: Key)
    ensures Find(a, k).None? <==> forall i | 0 <= i < |a| :: a[i].key != k
    ensures Find(a, k).Some? ==> exists i | 0 <= i < |a| ::
      a[i] == Entry(k, Find(a, k).value) && forall j | 0 <= j < i :: a[j].key != k
  {
    if |a| > 0 && a[0].key != k {
      FindFirst(a[1..], k);
      if Find(a, k).Some? {
        var i :| 0 <= i < |a[1..]| && a[1..][i] == Entry(k, Find(a, k).value) && forall j | 0 <= j < i :: a[1..][j].key != k;
        assert a[i + 1] == Entry(k, Find(a, k).value);
      }
    } else if |a| > 0 {
      assert a[0] == Entry(k, Find(a, k).value);
    }
  }

  /** `$a[$k] = $v`: an existing key keeps its position, a new key is appended. */
  function Store(a: seq<Entry>, k: Key, v: Value): (r: seq<Entry>)
    ensures Find(r, k) == Some(v)
    ensures forall k' | k' != k :: Find(r, k') == Find(a, k')
    ensures Find(a, k).None? ==> r == a + [Entry(k, v)]
  {
    if |a| == 0 then [Entry(k, v)]
    else if a[0].key == k then [Entry(k, v)] + a[1..]
    else [a[0]] + Store(a[1..], k, v)
  }

  /** Assigning the same key twice keeps only the second value, in the
      position the first assignment gave the key. */
  lemma {:induction false} StoreTwice(a: seq<Entry>, k: Key, v: Value, w: Value)
    ensures Store(Store(a, k, v), k, w) == Store(a, k, w)
  {
    if |a| > 0 && a[0].key != k {
      StoreTwice(a[1..], k, v, w);
      assert Store(a, k, v)[1..] == Store(a[1..], k, v);
    }
  }

  /** `unset($a[$k])`: the other entries keep their order. */
  function Remove(a: seq<Entry>, k: Key): (r: seq<Entry>)
    ensures Find(r, k) == None
    ensures forall k' | k' != k :: Find(r, k') == Find(a, k')
    ensures |r| <= |a|
  {
    if |a| == 0 then []
    else if a[0].key == k then Remove(a[1..], k)
    else [a[0]] + Remove(a[1..], k)
  }

  /** `$a['name']` on an array, null when the key is missing. */
  function Lookup(a: seq<Entry>, name: string): Value {
    Find(a, K(name)).GetOr(Null)
  }

  /** `$v['name']` inside isset()/empty() for a literal non-numeric key:
      a value that is not an array has no such element. */
  function Get(v: Value, name: string): (r: Value)
    ensures r != Null ==> v.Arr?
  {
    if v.Arr? then Lookup(v.entries, name) else Null
  }

  // ---------------------------------------------------------------------
  // empty(), isset(), strict comparison with foreach keys

  /** `empty($v)`. */
  predicate Empty(v: Value) {
    match v
    case Null => true
    case Bool(b) => !b
    case Int(i) => i == 0
    case Str(s) => s == "" || s == "0"
    case Arr(es) => es == []
  }

  /** `isset($v)`: present and not null. */
  predicate IsSet(v: Value) { v != Null }

  /** The value a `foreach ($a as $k => ...)` loop binds to `$k`. */
  function KeyValue(k: Key): (r: Value)
    ensures k.IntKey? || !IsIntString(k.s) ==> KeyOf(r) == Some(k)
  {
    match k
    case IntKey(i) => Int(i)
    case StrKey(s) => Str(s)
  }

  // ---------------------------------------------------------------------
  // Decimal integers

  predicate IsDigit(c: char) { '0' <= c <= '9' }

  predicate AllDigits(s: string) { forall i | 0 <= i < |s| :: IsDigit(s[i]) }

  /** The number a string of decimal digits denotes. */
  function DigitsValue(s: string): nat
    requires AllDigits(s)
  {
    if |s| == 0 then 0
    else 10 * DigitsValue(s[..|s| - 1]) + (s[|s| - 1] as int - '0' as int)
  }

  /** The decimal digits of n, without leading zeros. */
  function Digits(n: nat): (r: string)
    ensures |r| > 0 && AllDigits(r)
    ensures n > 0 ==> r[0] != '0'
    ensures n == 0 ==> r == "0"
  {
    if n < 10 then [('0' as int + n) as char]
    else Digits(n / 10) + [('0' as int + n % 10) as char]
  }

  /** PHP's (string) of an integer. */
  function IntToString(i: int): string {
    if i < 0 then "-" + Digits(-i) else Digits(i)
  }

  /** A string PHP turns into an integer array key: canonical decimal form,
      no leading zeros, no "-0", inside the 64-bit range. */
  predicate IsIntString(s: string) {
    if s == "0" then true
    else if |s| > 0 && s[0] == '-' then
      |s| > 1 && s[1] != '0' && AllDigits(s[1..]) && DigitsValue(s[1..]) <= -MinInt
    else
      |s| > 0 && s[0] != '0' && AllDigits(s) && DigitsValue(s) <= MaxInt
  }

  function ParseIntString(s: string): int
    requires IsIntString(s)
  {
    if s == "0" then 0
    else if s[0] == '-' then -(DigitsValue(s[1..]) as int)
    else DigitsValue(s)
  }

  /** The array key PHP uses for a string. */
  function StringKey(s: string): (r: Key)
    ensures r.IntKey? <==> IsIntString(s)
    ensures r.StrKey? ==> r.s == s
    ensures r.IntKey? ==> IntToString(r.i) == s
  {
    if IsIntString(s) then
      IntStringRoundTrip(s);
      IntKey(ParseIntString(s))
    else StrKey(s)
  }

  /** A digit string with no leading zero denotes at least 1. */
  lemma {:induction false} LeadingNonZeroPositive(s: string)
    requires |s| > 0 && AllDigits(s) && s[0] != '0'
    ensures DigitsValue(s) >= 1
  {
    if |s| > 1 {
      var p := s[..|s| - 1];
      assert p[0] == s[0];
      LeadingNonZeroPositive(p);
    }
  }

  /** Without a leading zero, a digit string is the decimal form of its value. */
  lemma {:induction false} ValueRoundTrip(s: string)
    requires |s| > 0 && AllDigits(s) && s[0] != '0'
    ensures Digits(DigitsValue(s)) == s
  {
    if |s| > 1 {
      var p := s[..|s| - 1];
      assert p[0] == s[0];
      LeadingNonZeroPositive(p);
      ValueRoundTrip(p);
      var n := DigitsValue(s);
      assert n / 10 == DigitsValue(p) && n % 10 == s[|s| - 1] as int - '0' as int;
      assert s == p + [s[|s| - 1]];
    }
  }

  /** A string PHP reads as an integer key is that integer's string. */
  lemma IntStringRoundTrip(s: string)
    requires IsIntString(s)
    ensures IntToString(ParseIntString(s)) == s
  {
    if s != "0" {
      if s[0] == '-' {
        var d := s[1..];
        assert d[0] == s[1];
        ValueRoundTrip(d);
        LeadingNonZeroPositive(d);
        assert s == "-" + d;
      } else {
        ValueRoundTrip(s);
      }
    }
  }

  /** The array key PHP uses for a value; None for an array, which PHP
      rejects as an "illegal offset type". */
  function KeyOf(v: Value): Option<Key> {
    match v
    case Null => Some(StrKey(""))
    case Bool(b) => Some(IntKey(if b then 1 else 0))
    case Int(i) => Some(IntKey(i))
    case Str(s) => Some(StringKey(s))
    case Arr(_) => None
  }

  /** PHP's (string) conversion, as used by the `.` operator. */
  function ToStr(v: Value): (r: string)
    ensures v == Null || v == Bool(false) ==> r == ""
    ensures v.Int? && MinInt <= v.i <= MaxInt ==> StringKey(r) == IntKey(v.i)
  {
    match v
    case Null => ""
    case Bool(b) => if b then "1" else ""
    case Int(i) =>
      assert MinInt <= i <= MaxInt ==> KeyOf(Str(IntToString(i))) == KeyOf(Int(i)) by {
        if MinInt <= i <= MaxInt { IntStringSameKey(i); }
      }
      IntToString(i)
    case Str(s) => s
    case Arr(_) => "Array"
  }

  lemma {:induction false} DigitsRoundTrip(n: nat)
    ensures DigitsValue(Digits(n)) == n
  {
    if n >= 10 {
      DigitsRoundTrip(n / 10);
      var d := Digits(n / 10);
      var c := ('0' as int + n % 10) as char;
      assert (d + [c])[..|d + [c]| - 1] == d;
    }
  }

  /** An integer and its decimal string select the same array slot. */
  lemma IntStringSameKey(i: int)
    requires MinInt <= i <= MaxInt
    ensures KeyOf(Str(IntToString(i))) == KeyOf(Int(i))
  {
    var s := IntToString(i);
    if i < 0 {
      var d := Digits(-i);
      DigitsRoundTrip(-i);
      assert s[1..] == d;
      assert s[0] == '-' && s != "0";
      assert IsIntString(s);
      assert ParseIntString(s) == i;
    } else if i > 0 {
      DigitsRoundTrip(i);
      assert IsIntString(s);
    }
  }

  // ---------------------------------------------------------------------
  // Reading and writing one dimension

  /** The leading digits of s. */
  function LeadingDigits(s: string): (r: string)
    ensures AllDigits(r) && |r| <= |s| && r == s[..|r|]
    ensures |r| < |s| ==> !IsDigit(s[|r|])
  {
    if |s| == 0 || !IsDigit(s[0]) then "" else [s[0]] + LeadingDigits(s[1..])
  }

  /** The characters PHP skips before a number in a numeric string. */
  predicate IsSpace(c: char) {
    c == ' ' || c == '\t' || c == '\n' || c == '\r' || c == 11 as char || c == 12 as char
  }

  /** s without the white space PHP skips before a number. */
  function SkipSpace(s: string): (r: string)
    ensures |r| <= |s| && r == s[|s| - |r|..]
    ensures forall i | 0 <= i < |s| - |r| :: IsSpace(s[i])
    ensures |r| > 0 ==> !IsSpace(r[0])
    ensures |s| > 0 && !IsSpace(s[0]) ==> r == s
  {
    if |s| > 0 && IsSpace(s[0]) then
      var t := s[1..];
      var r := SkipSpace(t);
      assert t[|t| - |r|..] == s[|s| - |r|..];
      assert forall i | 1 <= i < |s| - |r| :: s[i] == t[i - 1];
      r
    else s
  }

  /** PHP's (int) of a string: leading white space, then an optional sign
      followed by digits; anything else gives 0. */
  function CastInt(str: string): int {
    var s := SkipSpace(str);
    if |s| > 0 && s[0] == '-' then -(DigitsValue(LeadingDigits(s[1..])) as int)
    else if |s| > 0 && s[0] == '+' then DigitsValue(LeadingDigits(s[1..]))
    else DigitsValue(LeadingDigits(s))
  }

  /** The integer offset PHP uses when a value indexes a string; an array
      is an illegal offset and, after the warning, is cast to 0 when empty
      and to 1 otherwise. */
  function OffsetInt(off: Value): int {
    match off
    case Null => 0
    case Bool(b) => if b then 1 else 0
    case Int(i) => i
    case Str(s) => if IsIntString(s) then ParseIntString(s) else CastInt(s)
    case Arr(es) => if es == [] then 0 else 1
  }

  /** `$base[$off]` as an ordinary read: on an array a lookup, on a string
      the one-character string at that offset (negative offsets count from
      the end, an offset out of range gives ""), null on anything else. */
  function ReadDim(base: Value, off: Value): (r: Value)
    ensures base.Str? ==> r.Str? && |r.s| <= 1
    ensures base.Str? && |base.s| > 0 && OffsetInt(off) == 0 ==> r == Str([base.s[0]])
    ensures !base.Arr? && !base.Str? ==> r == Null
  {
    match base
    case Arr(es) =>
      (match KeyOf(off)
       case Some(k) => Find(es, k).GetOr(Null)
       case None => Null)
    case Str(s) =>
      var i := OffsetInt(off);
      var j := if i < 0 then i + |s| else i;
      if 0 <= j < |s| then Str([s[j]]) else Str("")
    case _ => Null
  }

  /** A value PHP can index for writing: an array, or null / false, which
      become a new array. */
  predicate Writable(v: Value) {
    v.Arr? || v == Null || v == Bool(false)
  }

  /** `$v[$k] = $x` where `$v` is assignable. A value that cannot hold
      elements is left as it is. */
  function WriteDim(v: Value, k: Key, x: Value): (r: Value)
    ensures Writable(v) ==> r.Arr? && Find(r.entries, k) == Some(x)
    ensures v.Arr? ==> r.Arr? && forall k' | k' != k :: Find(r.entries, k') == Find(v.entries, k')
    ensures !Writable(v) ==> r == v
  {
    match v
    case Arr(es) => Arr(Store(es, k, x))
    case Null => Arr([Entry(k, x)])
    case Bool(b) => if b then v else Arr([Entry(k, x)])
    case _ => v
  }

  /** The PHP quirk behind the field registration's guard: indexing a
      (non-empty) string with a name that does not start with a digit, a
      sign or white space reads the string's first character. */
  lemma StringOffsetReadsFirstChar(s: string, name: string)
    requires |s| > 0 && |name| > 0
    requires !IsDigit(name[0]) && name[0] != '-' && name[0] != '+' && !IsSpace(name[0])
    ensures ReadDim(Str(s), Str(name)) == Str([s[0]])
  {
    assert !IsIntString(name);
    assert LeadingDigits(name) == "";
  }

  /** A name made of one white-space character and digits is a numeric
      offset, not a first-character read: `$s[" 1"]` reads `$s[1]`. */
  lemma SpacedNameIsOffset(name: string)
    requires |name| > 1 && IsSpace(name[0]) && AllDigits(name[1..])
    ensures OffsetInt(Str(name)) == DigitsValue(name[1..])
  {
    var d := name[1..];
    assert !IsIntString(name) by {
      assert !IsDigit(name[0]);
    }
    assert SkipSpace(name) == d by {
      assert d[0] == name[1];
      assert !IsSpace(d[0]);
    }
    assert LeadingDigits(d) == d;
    assert d[0] != '-' && d[0] != '+' by {
      assert IsDigit(d[0]);
    }
  }
}
