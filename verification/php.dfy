/**
 * The slice of PHP's value model the uploader relies on: ordered arrays,
 * `isset`, reading an offset, the `(int)` and string casts, truthiness and
 * `array_merge`. PSR-7 uploaded-file objects live here too, because a raw
 * `$_FILES`-shaped array may already hold them.
 */
module Php {
  import opened Wrappers

  /** An array key. PHP stores a numeric-string key such as "0" as the
      integer 0, so every key is represented by its canonical string. */
  type Key = string

  /** The PHP values that can appear in a submission or in the options. */
  datatype Value =
    | Null
    | Bool(b: bool)
    | Int(n: int)
    | Str(s: string)
    | Arr(entries: seq<(Key, Value)>)
    | File(handle: FileHandle)
    /** An object that does not implement the uploaded-file interface. */
    | Object

  /** A PSR-7 uploaded file: what its constructor was given, with size and
      error code already passed through `(int)`. */
  datatype FileHandle = FileHandle(
    tmpName: Value,
    size: int,
    error: int,
    clientFilename: Value,
    clientMediaType: Value)

  /** An ordered PHP array. */
  type PhpArray = seq<(Key, Value)>

  /** The keys of an array, in order. */
  function Keys<V>(a: seq<(Key, V)>): (ks: seq<Key>)
    ensures |ks| == |a|
    ensures forall i :: 0 <= i < |a| ==> ks[i] == a[i].0
  {
    seq(|a|, i requires 0 <= i < |a| => a[i].0)
  }

  /** PHP arrays never repeat a key. */
  predicate DistinctKeys<V>(a: seq<(Key, V)>) {
    forall i, j :: 0 <= i < j < |a| ==> a[i].0 != a[j].0
  }

  /** `$a[$k]` when the key is present (the first entry with that key). */
  function Lookup<V>(a: seq<(Key, V)>, k: Key): (r: Option<V>)
    ensures r.None? <==> k !in Keys(a)
    ensures r.Some? ==> exists i :: 0 <= i < |a| && a[i] == (k, r.value)
  {
    if |a| == 0 then None
    else if a[0].0 == k then Some(a[0].1)
    else
      var r := Lookup(a[1..], k);
      assert r.Some? ==> exists i :: 0 <= i < |a[1..]| && a[1..][i] == (k, r.value);
      assert Keys(a) == [a[0].0] + Keys(a[1..]);
      r
  }

  /** In an array without repeated keys, looking up the key at position i
      yields the value at position i. */
  lemma {:induction false} LookupAt<V>(a: seq<(Key, V)>, i: nat)
    requires DistinctKeys(a) && i < |a|
    ensures Lookup(a, a[i].0) == Some(a[i].1)
  {
    if i > 0 {
      assert a[0].0 != a[i].0;
      assert a[1..][i - 1] == a[i];
      LookupAt(a[1..], i - 1);
    }
  }

  /** Lookup in a concatenation consults the left part first. */
  lemma {:induction false} LookupAppend<V>(a: seq<(Key, V)>, b: seq<(Key, V)>, k: Key)
    ensures Lookup(a + b, k) == (if Lookup(a, k).Some? then Lookup(a, k) else Lookup(b, k))
  {
    if |a| > 0 {
      assert (a + b)[0] == a[0];
      assert (a + b)[1..] == a[1..] + b;
      if a[0].0 != k {
        LookupAppend(a[1..], b, k);
      }
    } else {
      assert a + b == b;
    }
  }

  /** `isset($a[$k])`: the key is present and its value is not null. */
  predicate IsSet(a: PhpArray, k: Key) {
    Lookup(a, k).Some? && Lookup(a, k).value != Null
  }

  /** `$a[$k]` read as an rvalue: a missing key reads as null. */
  function Get(a: PhpArray, k: Key): Value {
    Lookup(a, k).GetOr(Null)
  }

  /** `$v[$k]` for any value: offsets of anything but an array read as null. */
  function Index(v: Value, k: Key): Value {
    if v.Arr? then Get(v.entries, k) else Null
  }

  /** PHP truthiness, negated: the values `!$v` holds for. */
  predicate Falsy(v: Value) {
    match v
    case Null => true
    case Bool(b) => !b
    case Int(n) => n == 0
    case Str(s) => s == "" || s == "0"
    case Arr(e) => |e| == 0
    case File(_) => false
    case Object => false
  }

  predicate IsDigit(c: char) {
    '0' <= c <= '9'
  }

  /** The decimal digits of a natural number, most significant first. */
  function NatDigits(n: nat): (ds: string)
    ensures |ds| > 0
    ensures forall i :: 0 <= i < |ds| ==> IsDigit(ds[i])
  {
    var last := ['0' + (n % 10) as char];
    if n < 10 then last else NatDigits(n / 10) + last
  }

  /** The value of a string of decimal digits. */
  function DigitsValue(ds: string): nat
    requires forall i :: 0 <= i < |ds| ==> IsDigit(ds[i])
  {
    if |ds| == 0 then 0
    else
      assert IsDigit(ds[|ds| - 1]);
      DigitsValue(ds[..|ds| - 1]) * 10 + (ds[|ds| - 1] as int - '0' as int)
  }

  /** The longest prefix of `s` made of decimal digits. */
  function DigitRun(s: string): (ds: string)
    ensures |ds| <= |s| && ds == s[..|ds|]
    ensures forall i :: 0 <= i < |ds| ==> IsDigit(ds[i])
    ensures |ds| < |s| ==> !IsDigit(s[|ds|])
  {
    if |s| == 0 || !IsDigit(s[0]) then "" else [s[0]] + DigitRun(s[1..])
  }

  predicate IsSpace(c: char) {
    c == ' ' || c == '\t' || c == '\n' || c == '\r' || c == '\U{B}' || c == '\U{C}'
  }

  /** `s` without its leading white space. */
  function SkipSpace(s: string): (t: string)
    ensures |t| <= |s| && t == s[|s| - |t|..]
    ensures |t| > 0 ==> !IsSpace(t[0])
  {
    if |s| > 0 && IsSpace(s[0]) then SkipSpace(s[1..]) else s
  }

  /** `(int)` applied to a string: optional white space and sign, then the
      leading run of digits; a string without one converts to 0. */
  function LeadingInt(s: string): int {
    var t := SkipSpace(s);
    if |t| > 0 && t[0] == '-' then -(DigitsValue(DigitRun(t[1..])) as int)
    else if |t| > 0 && t[0] == '+' then DigitsValue(DigitRun(t[1..]))
    else DigitsValue(DigitRun(t))
  }

  /** PHP's `(int)` cast. */
  function ToInt(v: Value): int {
    match v
    case Null => 0
    case Bool(b) => if b then 1 else 0
    case Int(n) => n
    case Str(s) => LeadingInt(s)
    case Arr(e) => if |e| == 0 then 0 else 1
    case File(_) => 1
    case Object => 1
  }

  /** An integer written in decimal, as PHP's string conversion does. */
  function Decimal(n: int): string {
    if n < 0 then "-" + NatDigits(-n) else NatDigits(n)
  }

  /** PHP's string conversion (as used by `.`). */
  function ToStr(v: Value): string {
    match v
    case Null => ""
    case Bool(b) => if b then "1" else ""
    case Int(n) => Decimal(n)
    case Str(s) => s
    case Arr(_) => "Array"
    case File(_) => ""
    case Object => ""
  }

  lemma {:induction false} DigitsValueOfNatDigits(n: nat)
    ensures DigitsValue(NatDigits(n)) == n
  {
    var ds := NatDigits(n);
    var last := ['0' + (n % 10) as char];
    if n >= 10 {
      assert ds == NatDigits(n / 10) + last;
      assert ds[..|ds| - 1] == NatDigits(n / 10);
      DigitsValueOfNatDigits(n / 10);
    }
  }

  lemma {:induction false} DigitRunOfDigits(ds: string)
    requires forall i :: 0 <= i < |ds| ==> IsDigit(ds[i])
    ensures DigitRun(ds) == ds
  {
    if |ds| > 0 {
      DigitRunOfDigits(ds[1..]);
      assert ds == [ds[0]] + ds[1..];
    }
  }

  lemma SkipSpaceNone(s: string)
    requires |s| > 0 && !IsSpace(s[0])
    ensures SkipSpace(s) == s
  {
  }

  /** `(int)` reads a run of digits as its value. */
  lemma LeadingIntOfDigits(ds: string)
    requires |ds| > 0 && forall i :: 0 <= i < |ds| ==> IsDigit(ds[i])
    ensures LeadingInt(ds) == DigitsValue(ds)
  {
    assert IsDigit(ds[0]);
    SkipSpaceNone(ds);
    DigitRunOfDigits(ds);
  }

  /** `(int)` reads a minus sign and a run of digits as the negated value. */
  lemma LeadingIntOfNegative(ds: string)
    requires |ds| > 0 && forall i :: 0 <= i < |ds| ==> IsDigit(ds[i])
    ensures LeadingInt("-" + ds) == -(DigitsValue(ds) as int)
  {
    var s := "-" + ds;
    assert s[0] == '-' && s[1..] == ds;
    SkipSpaceNone(s);
    DigitRunOfDigits(ds);
  }

  /** Casting an integer to a string and back with `(int)` gives the
      integer back. */
  lemma IntStringRoundTrip(n: int)
    ensures ToInt(Str(ToStr(Int(n)))) == n
  {
    var m: nat := if n < 0 then -n else n;
    var ds := NatDigits(m);
    DigitsValueOfNatDigits(m);
    if n < 0 {
      assert ToStr(Int(n)) == "-" + ds;
      LeadingIntOfNegative(ds);
    } else {
      assert ToStr(Int(n)) == ds;
      LeadingIntOfDigits(ds);
    }
  }

  /** `$defaults` with each key's value replaced by the one `$overrides`
      holds for it. */
  function Overridden(defaults: PhpArray, overrides: PhpArray): (r: PhpArray)
    ensures Keys(r) == Keys(defaults)
  {
    if |defaults| == 0 then []
    else
      var (k, v) := defaults[0];
      [(k, Lookup(overrides, k).GetOr(v))] + Overridden(defaults[1..], overrides)
  }

  /** The entries of `$overrides` whose key `$defaults` lacks, in order. */
  function Additions(overrides: PhpArray, defaults: PhpArray): (r: PhpArray)
    ensures forall i :: 0 <= i < |r| ==> r[i].0 !in Keys(defaults)
  {
    if |overrides| == 0 then []
    else
      var rest := Additions(overrides[1..], defaults);
      if overrides[0].0 in Keys(defaults) then rest else [overrides[0]] + rest
  }

  /** `array_merge($defaults, $overrides)` on string-keyed arrays. */
  function Merge(defaults: PhpArray, overrides: PhpArray): PhpArray {
    Overridden(defaults, overrides) + Additions(overrides, defaults)
  }

  lemma {:induction false} LookupOverridden(defaults: PhpArray, overrides: PhpArray, k: Key)
    ensures Lookup(Overridden(defaults, overrides), k)
         == (if k !in Keys(defaults) then None
             else if Lookup(overrides, k).Some? then Lookup(overrides, k)
             else Lookup(defaults, k))
  {
    if |defaults| > 0 {
      assert Keys(defaults) == [defaults[0].0] + Keys(defaults[1..]);
      LookupOverridden(defaults[1..], overrides, k);
    }
  }

  lemma {:induction false} LookupAdditions(overrides: PhpArray, defaults: PhpArray, k: Key)
    ensures Lookup(Additions(overrides, defaults), k)
         == (if k in Keys(defaults) then None else Lookup(overrides, k))
  {
    if |overrides| > 0 {
      LookupAdditions(overrides[1..], defaults, k);
    }
  }

  /** After `array_merge`, a key reads as the override when the overrides
      hold it and as the default otherwise. */
  lemma MergeLookup(defaults: PhpArray, overrides: PhpArray, k: Key)
    ensures Lookup(Merge(defaults, overrides), k)
         == (if Lookup(overrides, k).Some? then Lookup(overrides, k) else Lookup(defaults, k))
  {
    LookupAppend(Overridden(defaults, overrides), Additions(overrides, defaults), k);
    LookupOverridden(defaults, overrides, k);
    LookupAdditions(overrides, defaults, k);
  }
}
