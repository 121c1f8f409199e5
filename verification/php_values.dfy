/**
 * PHP values as the library sees them after `json_decode($body, true)`.
 *
 * A PHP array is an ordered map whose keys are integers or strings; JSON
 * lists decode to integer keys 0..n-1 and JSON objects to string keys, so a
 * single `Arr` constructor covers both. Entries keep their insertion order,
 * because `array_merge`, `array_values` and friends depend on it.
 */
module PhpValues {
  import opened Wrappers

  datatype Key = IntKey(i: int) | StrKey(s: string)

  datatype Value =
    | Null
    | Bool(b: bool)
    | Int(i: int)
      /** A float, carried as PHP's own string rendering of it ("1.5", "0", "-0"). */
    | Float(repr: string)
    | Str(s: string)
    | Arr(entries: seq<Entry>)

  datatype Entry = Entry(key: Key, val: Value)

  // ---------------------------------------------------------------------------
  // Key lookup in an ordered array
  // ---------------------------------------------------------------------------

  predicate HasKey(es: seq<Entry>, k: Key) {
    exists j :: 0 <= j < |es| && es[j].key == k
  }

  /** Every key occurs at most once: the invariant of a PHP hash table. */
  predicate UniqueKeys(es: seq<Entry>) {
    forall i, j :: 0 <= i < j < |es| ==> es[i].key != es[j].key
  }

  /** The value stored under `k` (the first one, should keys ever repeat). */
  function Find(es: seq<Entry>, k: Key): (r: Option<Value>)
    ensures r.Some? <==> HasKey(es, k)
    ensures r.Some? ==> Entry(k, r.value) in es
  {
    if es == [] then None
    else if es[0].key == k then Some(es[0].val)
    else
      var rest := Find(es[1..], k);
      assert HasKey(es, k) ==> HasKey(es[1..], k) by {
        if HasKey(es, k) {
          var j :| 0 <= j < |es| && es[j].key == k;
          assert es[1..][j - 1].key == k;
        }
      }
      assert HasKey(es[1..], k) ==> HasKey(es, k) by {
        if HasKey(es[1..], k) {
          var j :| 0 <= j < |es[1..]| && es[1..][j].key == k;
          assert es[j + 1].key == k;
        }
      }
      rest
  }

  /** Under unique keys, an entry of the array is what lookup returns. */
  lemma {:induction false} FindEntry(es: seq<Entry>, j: nat)
    requires UniqueKeys(es)
    requires j < |es|
    ensures Find(es, es[j].key) == Some(es[j].val)
  {
    if j > 0 {
      assert es[0].key != es[j].key;
      assert es[1..][j - 1] == es[j];
      assert UniqueKeys(es[1..]) by {
        forall a, b | 0 <= a < b < |es[1..]|
          ensures es[1..][a].key != es[1..][b].key
        {
          assert es[1..][a] == es[a + 1] && es[1..][b] == es[b + 1];
        }
      }
      FindEntry(es[1..], j - 1);
    }
  }

  /** Lookup in an array extended at its end. */
  lemma {:induction false} FindAppend(es: seq<Entry>, e: Entry, k: Key)
    ensures Find(es + [e], k) ==
              if HasKey(es, k) then Find(es, k)
              else if e.key == k then Some(e.val)
              else None
  {
    if es != [] {
      assert (es + [e])[1..] == es[1..] + [e];
      FindAppend(es[1..], e, k);
      if es[0].key != k {
        assert HasKey(es, k) <==> HasKey(es[1..], k) by {
          if HasKey(es, k) {
            var j :| 0 <= j < |es| && es[j].key == k;
            assert es[1..][j - 1].key == k;
          }
          if HasKey(es[1..], k) {
            var j :| 0 <= j < |es[1..]| && es[1..][j].key == k;
            assert es[j + 1].key == k;
          }
        }
      } else {
        assert HasKey(es, k) by { assert es[0].key == k; }
      }
    }
  }

  /**
   * `$a[$k] = $v` on an array: the value of an existing key is replaced in
   * place, a new key is appended at the end.
   */
  function Set(es: seq<Entry>, k: Key, v: Value): (r: seq<Entry>)
    ensures Find(r, k) == Some(v)
    ensures forall k' :: k' != k ==> Find(r, k') == Find(es, k')
    ensures HasKey(es, k) ==> |r| == |es|
    ensures !HasKey(es, k) ==> r == es + [Entry(k, v)]
  {
    if es == [] then [Entry(k, v)]
    else if es[0].key == k then [Entry(k, v)] + es[1..]
    else
      var t := Set(es[1..], k, v);
      var r := [es[0]] + t;
      assert es == [es[0]] + es[1..];
      forall k' ensures Find(r, k') == (if es[0].key == k' then Some(es[0].val) else Find(t, k')) {
        FindCons(es[0], t, k');
      }
      r
  }

  /** Lookup in an array with one more entry at its front. */
  lemma FindCons(e: Entry, t: seq<Entry>, k: Key)
    ensures Find([e] + t, k) == if e.key == k then Some(e.val) else Find(t, k)
  {
    assert ([e] + t)[1..] == t;
  }

  /** Assigning an element keeps the keys of an array unique. */
  lemma {:induction false} SetUnique(es: seq<Entry>, k: Key, v: Value)
    requires UniqueKeys(es)
    ensures UniqueKeys(Set(es, k, v))
  {
    var r := Set(es, k, v);
    if es == [] {
    } else if es[0].key == k {
      forall a, b | 0 <= a < b < |r| ensures r[a].key != r[b].key {
        assert r[a].key == es[a].key && r[b].key == es[b].key;
      }
    } else {
      var tail := Set(es[1..], k, v);
      assert UniqueKeys(es[1..]) by {
        forall a, b | 0 <= a < b < |es[1..]|
          ensures es[1..][a].key != es[1..][b].key
        {
          assert es[1..][a] == es[a + 1] && es[1..][b] == es[b + 1];
        }
      }
      SetUnique(es[1..], k, v);
      forall j | 0 <= j < |es[1..]| ensures es[1..][j].key != es[0].key {
        assert es[1..][j] == es[j + 1];
      }
      assert !HasKey(tail, es[0].key) by {
        assert Find(tail, es[0].key) == Find(es[1..], es[0].key);
      }
      forall a, b | 0 <= a < b < |r| ensures r[a].key != r[b].key {
        assert r[b] == tail[b - 1];
        if a != 0 {
          assert r[a] == tail[a - 1];
        }
      }
    }
  }

  /** Some key of the array is an integer. */
  predicate HasIntKey(es: seq<Entry>) {
    exists j :: 0 <= j < |es| && es[j].key.IntKey?
  }

  /**
   * PHP's next free integer index, as of PHP 8.3: one past the largest
   * integer key, even when that key is negative, and 0 when there is none.
   */
  function NextFree(es: seq<Entry>): (r: int)
    ensures forall j :: 0 <= j < |es| && es[j].key.IntKey? ==> es[j].key.i < r
    ensures HasIntKey(es) ==> exists j :: 0 <= j < |es| && es[j].key == IntKey(r - 1)
    ensures !HasIntKey(es) ==> r == 0
  {
    if es == [] then 0
    else
      var n := NextFree(es[1..]);
      assert forall j :: 1 <= j < |es| ==> es[j] == es[1..][j - 1];
      match es[0].key
      case IntKey(i) => if HasIntKey(es[1..]) && n > i + 1 then n else i + 1
      case StrKey(_) =>
        assert HasIntKey(es) ==> HasIntKey(es[1..]);
        n
  }

  /** `$a[] = $v`: append under the next free integer index. */
  function Push(es: seq<Entry>, v: Value): (r: seq<Entry>)
    ensures |r| == |es| + 1 && r[..|es|] == es
    ensures r[|es|] == Entry(IntKey(NextFree(es)), v)
    ensures !HasKey(es, IntKey(NextFree(es)))
    ensures UniqueKeys(es) ==> UniqueKeys(r)
  {
    var k := IntKey(NextFree(es));
    assert forall j :: 0 <= j < |es| ==> es[j].key != k;
    es + [Entry(k, v)]
  }

  /** A PHP list: the values under the keys 0, 1, ..., n-1, in order. */
  function List(vs: seq<Value>): (r: seq<Entry>)
    ensures |r| == |vs|
    ensures forall i :: 0 <= i < |r| ==> r[i] == Entry(IntKey(i), vs[i])
    ensures UniqueKeys(r)
  {
    seq(|vs|, i requires 0 <= i < |vs| => Entry(IntKey(i), vs[i]))
  }

  // ---------------------------------------------------------------------------
  // Integer keys written as strings
  // ---------------------------------------------------------------------------

  predicate IsDigit(c: char) {
    '0' <= c <= '9'
  }

  predicate AllDigits(s: string) {
    forall i :: 0 <= i < |s| ==> IsDigit(s[i])
  }

  /** A non-negative decimal without a superfluous leading zero: "0", "7", "42". */
  predicate IsCanonicalNat(s: string) {
    |s| >= 1 && AllDigits(s) && (s[0] != '0' || |s| == 1)
  }

  /** A canonical decimal, optionally negative ("-0" is not one). */
  predicate IsCanonicalInt(s: string) {
    || IsCanonicalNat(s)
    || (|s| >= 2 && s[0] == '-' && IsCanonicalNat(s[1..]) && s[1] != '0')
  }

  /** PHP's integers are 64 bits wide. */
  const LongMin: int := -0x8000_0000_0000_0000
  const LongMax: int := 0x7FFF_FFFF_FFFF_FFFF

  predicate InLongRange(i: int) {
    LongMin <= i <= LongMax
  }

  /** The integer a canonical decimal denotes. */
  function CanonicalValue(s: string): int
    requires IsCanonicalInt(s)
  {
    if IsCanonicalNat(s) then ParseNat(s) else -(ParseNat(s[1..]) as int)
  }

  /**
   * A string PHP turns into an integer key when it is used as an array key:
   * a canonical decimal, optionally negative, whose value fits in 64 bits.
   */
  predicate IsIntegerString(s: string) {
    IsCanonicalInt(s) && InLongRange(CanonicalValue(s))
  }

  function DigitValue(c: char): nat
    requires IsDigit(c)
  {
    (c as int - '0' as int) as nat
  }

  function DigitChar(d: nat): (c: char)
    requires d < 10
    ensures IsDigit(c) && DigitValue(c) == d
  {
    ('0' as int + d) as char
  }

  function ParseNat(s: string): nat
    requires AllDigits(s)
  {
    if s == [] then 0 else ParseNat(s[..|s| - 1]) * 10 + DigitValue(s[|s| - 1])
  }

  /** Decimal rendering of a natural number, as PHP's string conversion writes it. */
  function NatToString(n: nat): (s: string)
    ensures IsCanonicalNat(s)
    ensures s[0] != '0' <==> n != 0
    decreases n
  {
    if n < 10 then [DigitChar(n)]
    else
      var p := NatToString(n / 10);
      var s := p + [DigitChar(n % 10)];
      assert forall i :: 0 <= i < |p| ==> s[i] == p[i];
      s
  }

  /** Decimal rendering of an integer: `(string) $i`. */
  function IntToString(i: int): (s: string)
    ensures IsCanonicalInt(s)
  {
    if i < 0 then
      var p := NatToString(-i);
      assert ("-" + p)[1..] == p;
      "-" + p
    else NatToString(i)
  }

  /** The key a string denotes in `$array[$name]`: integer-looking strings become integer keys. */
  function ArrayKey(name: string): Key {
    if IsIntegerString(name) then IntKey(CanonicalValue(name)) else StrKey(name)
  }

  lemma {:induction false} ParseNatToString(n: nat)
    ensures ParseNat(NatToString(n)) == n
    decreases n
  {
    if n >= 10 {
      var p := NatToString(n / 10);
      ParseNatToString(n / 10);
      assert (p + [DigitChar(n % 10)])[..|p|] == p;
    }
  }

  lemma {:induction false} NatToStringParse(s: string)
    requires IsCanonicalNat(s)
    ensures NatToString(ParseNat(s)) == s
    decreases |s|
  {
    if |s| > 1 {
      var p := s[..|s| - 1];
      assert IsCanonicalNat(p) by {
        assert forall i :: 0 <= i < |p| ==> p[i] == s[i];
      }
      NatToStringParse(p);
      assert ParseNat(p) != 0 by {
        assert NatToString(ParseNat(p))[0] == s[0];
      }
      var n := ParseNat(s);
      assert n / 10 == ParseNat(p) && n % 10 == DigitValue(s[|s| - 1]);
      assert DigitChar(n % 10) == s[|s| - 1];
      assert s == p + [s[|s| - 1]];
    }
  }

  /** Writing an integer key as text and using the text as a key gives the integer key back. */
  lemma ArrayKeyOfIntToString(i: int)
    requires InLongRange(i)
    ensures ArrayKey(IntToString(i)) == IntKey(i)
  {
    if i < 0 {
      var p := NatToString(-i);
      assert ("-" + p)[1..] == p;
      ParseNatToString(-i);
    } else {
      ParseNatToString(i);
    }
  }

  /** An integer-looking key is exactly the rendering of the integer it denotes. */
  lemma IntToStringOfArrayKey(s: string)
    requires IsIntegerString(s)
    ensures ArrayKey(s).IntKey? && IntToString(ArrayKey(s).i) == s
  {
    if IsCanonicalNat(s) {
      NatToStringParse(s);
    } else {
      NatToStringParse(s[1..]);
      assert ParseNat(s[1..]) != 0 by {
        assert NatToString(ParseNat(s[1..]))[0] == s[1];
      }
      assert s == "-" + s[1..];
    }
  }

  // ---------------------------------------------------------------------------
  // Strings used as offsets into a string
  // ---------------------------------------------------------------------------

  /** The whitespace PHP's numeric-string reader skips: space, \t, \n, \r, \v, \f. */
  predicate IsNumericSpace(c: char) {
    c == ' ' || c == '\t' || c == '\n' || c == '\r' || c as int == 11 || c as int == 12
  }

  predicate AllSpaces(s: string) {
    forall i :: 0 <= i < |s| ==> IsNumericSpace(s[i])
  }

  /** The text after its leading whitespace. */
  function SkipSpaces(s: string): (r: string)
    ensures |r| <= |s| && r == s[|s| - |r|..]
    ensures r == [] || !IsNumericSpace(r[0])
  {
    if s != [] && IsNumericSpace(s[0]) then
      var r := SkipSpaces(s[1..]);
      assert s[1..][|s| - 1 - |r|..] == s[|s| - |r|..];
      r
    else s
  }

  /** What `SkipSpaces` drops is whitespace. */
  lemma {:induction false} SkippedAreSpaces(s: string)
    ensures AllSpaces(s[..|s| - |SkipSpaces(s)|])
    decreases |s|
  {
    if s != [] && IsNumericSpace(s[0]) {
      SkippedAreSpaces(s[1..]);
      var n := |s| - |SkipSpaces(s)|;
      assert forall i :: 1 <= i < n ==> s[..n][i] == s[1..][..n - 1][i - 1];
    }
  }

  /** The length of the run of digits the text starts with. */
  function DigitRun(s: string): (n: nat)
    ensures n <= |s| && AllDigits(s[..n])
    ensures n == |s| || !IsDigit(s[n])
  {
    if s != [] && IsDigit(s[0]) then
      var n := DigitRun(s[1..]);
      assert s[..n + 1] == [s[0]] + s[1..][..n];
      n + 1
    else 0
  }

  /** Text that turns a preceding run of digits into a float: a point, or an exponent with digits. */
  predicate StartsFloat(rest: string) {
    || (|rest| >= 1 && rest[0] == '.')
    || (|rest| >= 2 && (rest[0] == 'e' || rest[0] == 'E') && IsDigit(rest[1]))
    || (|rest| >= 3 && (rest[0] == 'e' || rest[0] == 'E') && (rest[1] == '+' || rest[1] == '-') && IsDigit(rest[2]))
  }

  /** An integer found at the start of a string, and the text after it. */
  datatype Leading = Leading(value: int, rest: string)

  /**
   * The integer a string starts with, as PHP's numeric-string reader finds
   * it: optional whitespace, an optional sign, at least one digit that does
   * not go on as a float, and a value within 64 bits.
   */
  function LeadingInteger(s: string): Option<Leading> {
    var t := SkipSpaces(s);
    var signed := t != [] && (t[0] == '+' || t[0] == '-');
    var u := if signed then t[1..] else t;
    var n := DigitRun(u);
    var m := ParseNat(u[..n]);
    var i := if signed && t[0] == '-' then -(m as int) else m;
    if n == 0 || StartsFloat(u[n..]) || !InLongRange(i) then None
    else Some(Leading(i, u[n..]))
  }

  /**
   * The offset `isset($s[$k])` and `empty($s[$k])` read from a string key:
   * the key must be an integer numeric string, whitespace allowed around it.
   */
  function StrictOffset(k: string): (r: Option<int>)
    ensures r.Some? ==> LenientOffset(k) == r
  {
    match LeadingInteger(k)
    case Some(l) => if AllSpaces(l.rest) then Some(l.value) else None
    case None => None
  }

  /**
   * The offset `$s[$k] ?? ...` and a plain read `$s[$k]` take from a string
   * key: any key that starts with an integer (a plain read warns about the
   * rest).
   */
  function LenientOffset(k: string): Option<int> {
    match LeadingInteger(k)
    case Some(l) => Some(l.value)
    case None => None
  }

  /** A key that starts with a letter or an underscore, like every field name the library reads. */
  predicate IsWord(s: string) {
    |s| > 0 && ('a' <= s[0] <= 'z' || 'A' <= s[0] <= 'Z' || s[0] == '_')
  }

  /** A word is never read as an offset into a string. */
  lemma WordIsNoOffset(s: string)
    requires IsWord(s)
    ensures LenientOffset(s).None? && StrictOffset(s).None?
  {
  }

  /**
   * A string that is an integer array key is also read as that offset into a
   * string, by `isset` as much as by `??`.
   */
  lemma {:induction false} IntegerStringOffset(s: string)
    requires IsIntegerString(s)
    ensures StrictOffset(s) == Some(CanonicalValue(s))
    ensures LenientOffset(s) == Some(CanonicalValue(s))
  {
    assert SkipSpaces(s) == s by {
      assert IsDigit(s[0]) || s[0] == '-';
    }
    var signed := s[0] == '+' || s[0] == '-';
    var u := if signed then s[1..] else s;
    assert AllDigits(u);
    DigitRunAll(u);
    assert u[..|u|] == u;
    if IsCanonicalNat(s) {
      assert !signed;
    } else {
      assert signed && s[0] == '-';
    }
    assert u[|u|..] == [];
  }

  /**
   * The offset a name denotes into a string agrees with the key it denotes
   * in an array: an integer key, or a string key.
   */
  lemma ArrayKeyOffset(name: string)
    ensures ArrayKey(name).IntKey? ==> LenientIndex(ArrayKey(name)) == LenientOffset(name) == Some(ArrayKey(name).i)
    ensures ArrayKey(name).IntKey? ==> StrictIndex(ArrayKey(name)) == StrictOffset(name) == Some(ArrayKey(name).i)
    ensures ArrayKey(name).StrKey? ==> LenientIndex(ArrayKey(name)) == LenientOffset(name)
    ensures ArrayKey(name).StrKey? ==> StrictIndex(ArrayKey(name)) == StrictOffset(name)
  {
    if IsIntegerString(name) {
      IntegerStringOffset(name);
    }
  }

  /** A run of digits is read to its end. */
  lemma {:induction false} DigitRunAll(s: string)
    requires AllDigits(s)
    ensures DigitRun(s) == |s|
    decreases |s|
  {
    if s != [] {
      DigitRunAll(s[1..]);
    }
  }

  /** A key that is a word denotes no offset into a string. */
  lemma WordKeyIsNoOffset(k: Key)
    ensures k.StrKey? && IsWord(k.s) ==> StrictIndex(k).None? && LenientIndex(k).None?
  {
    if k.StrKey? && IsWord(k.s) {
      WordIsNoOffset(k.s);
    }
  }

  /**
   * A key made of digits, leading zeros allowed ("01"), and then text that
   * does not make a float of them is read as the integer of those digits:
   * by `??` and plain reads whatever the text ("1a"), by `isset` and `empty`
   * only when the text is whitespace.
   */
  lemma {:induction false} LeadingDigitsOffset(d: string, t: string)
    requires |d| > 0 && AllDigits(d) && ParseNat(d) <= LongMax
    requires t == [] || !IsDigit(t[0])
    requires !StartsFloat(t)
    ensures LenientOffset(d + t) == Some(ParseNat(d))
    ensures StrictOffset(d + t) == if AllSpaces(t) then Some(ParseNat(d)) else None
  {
    DigitsThenText(d, t);
    assert LeadingInteger(d + t) == Some(Leading(ParseNat(d), t)) by {
      var k := d + t;
      assert k[0] == d[0] && IsDigit(k[0]);
      assert InLongRange(ParseNat(d));
    }
  }

  /** Digits that go on as a float ("1.5", "1e3") are no offset into a string at all. */
  lemma {:induction false} FloatDigitsOffset(d: string, t: string)
    requires |d| > 0 && AllDigits(d)
    requires StartsFloat(t)
    ensures LenientOffset(d + t).None? && StrictOffset(d + t).None?
  {
    DigitsThenText(d, t);
  }

  /** How the numeric-string reader splits digits followed by other text. */
  lemma {:induction false} DigitsThenText(d: string, t: string)
    requires |d| > 0 && AllDigits(d)
    requires t == [] || !IsDigit(t[0])
    ensures SkipSpaces(d + t) == d + t
    ensures DigitRun(d + t) == |d|
    ensures (d + t)[..|d|] == d && (d + t)[|d|..] == t
  {
    assert (d + t)[0] == d[0];
    assert !IsNumericSpace((d + t)[0]);
    DigitRunPrefix(d, t);
    ConcatSlices(d, t);
  }

  lemma ConcatSlices(d: string, t: string)
    ensures (d + t)[..|d|] == d && (d + t)[|d|..] == t
  {
  }

  /** The digit run of digits followed by a non-digit ends where the digits do. */
  lemma {:induction false} DigitRunPrefix(d: string, t: string)
    requires AllDigits(d)
    requires t == [] || !IsDigit(t[0])
    ensures DigitRun(d + t) == |d|
    decreases |d|
  {
    if d == [] {
      assert d + t == t;
    } else {
      assert (d + t)[1..] == d[1..] + t;
      DigitRunPrefix(d[1..], t);
    }
  }

  /** The offset a key denotes for `isset` and `empty`, if any. */
  function StrictIndex(k: Key): Option<int> {
    match k
    case IntKey(i) => Some(i)
    case StrKey(s) => StrictOffset(s)
  }

  /** The offset a key denotes for `??` and plain reads, if any. */
  function LenientIndex(k: Key): Option<int> {
    match k
    case IntKey(i) => Some(i)
    case StrKey(s) => LenientOffset(s)
  }

  // ---------------------------------------------------------------------------
  // PHP's readings of a value
  // ---------------------------------------------------------------------------

  /** `empty($v)` for a defined `$v`: the falsy values of PHP. */
  predicate Empty(v: Value) {
    match v
    case Null => true
    case Bool(b) => !b
    case Int(i) => i == 0
    case Float(r) => r == "0" || r == "-0"
    case Str(s) => s == "" || s == "0"
    case Arr(es) => es == []
  }

  /** The character of a string at an offset (negative offsets count from the end), if it exists. */
  function CharAt(s: string, i: int): Option<Value> {
    if 0 <= i < |s| then Some(Str([s[i]]))
    else if -|s| <= i < 0 then Some(Str([s[|s| + i]]))
    else None
  }

  /**
   * The element `$v[$k]` as `isset` and `empty` see it: they never warn or
   * throw, report a missing element as absent, and index a string only by
   * an integer or an integer numeric string.
   */
  function Offset(v: Value, k: Key): (r: Option<Value>)
    ensures v.Arr? ==> r == Find(v.entries, k)
    ensures v.Str? && StrictIndex(k).Some? ==> r == CharAt(v.s, StrictIndex(k).value)
    ensures v.Str? && StrictIndex(k).None? ==> r.None?
    ensures !v.Arr? && !v.Str? ==> r.None?
  {
    match v
    case Arr(es) => Find(es, k)
    case Str(s) =>
      (match StrictIndex(k)
        case Some(i) => CharAt(s, i)
        case None => None)
    case _ => None
  }

  /** `isset($v[$k])`: the element exists and is not null. */
  predicate Isset(v: Value, k: Key) {
    Offset(v, k).Some? && !Offset(v, k).value.Null?
  }

  /**
   * The element `$v[$k]` as `??` sees it: like `isset`, except that a string
   * is also indexed by a key that merely starts with an integer ("1a").
   */
  function Fetch(v: Value, k: Key): (r: Option<Value>)
    ensures Offset(v, k).Some? ==> r == Offset(v, k)
    ensures !v.Str? ==> r == Offset(v, k)
    ensures k.StrKey? && IsWord(k.s) ==> r == Offset(v, k)
    ensures v.Str? && r.Some? ==> LenientIndex(k).Some?
  {
    WordKeyIsNoOffset(k);
    match v
    case Arr(es) => Find(es, k)
    case Str(s) =>
      (match LenientIndex(k)
        case Some(i) => CharAt(s, i)
        case None => None)
    case _ => None
  }

  /** `$v[$k] ?? $default`. */
  function Coalesce(v: Value, k: Key, default: Value): (r: Value)
    ensures Isset(v, k) ==> r == Offset(v, k).value && !r.Null?
    ensures Fetch(v, k).Some? && !Fetch(v, k).value.Null? ==> r == Fetch(v, k).value
    ensures Fetch(v, k).None? || Fetch(v, k).value.Null? ==> r == default
  {
    match Fetch(v, k)
    case Some(x) => if x.Null? then default else x
    case None => default
  }

  /** `empty($v[$k])`: the element is missing, null or falsy. */
  predicate EmptyAt(v: Value, k: Key) {
    !Isset(v, k) || Empty(Offset(v, k).value)
  }

  /** `$v[$k] ?? null`: the element `??` finds, or null. */
  lemma CoalesceNull(v: Value, k: Key)
    ensures v.Arr? ==> Coalesce(v, k, Null) == Find(v.entries, k).GetOr(Null)
    ensures v.Str? ==>
              Coalesce(v, k, Null) == if LenientIndex(k).Some? then CharAt(v.s, LenientIndex(k).value).GetOr(Null) else Null
    ensures !v.Arr? && !v.Str? ==> Coalesce(v, k, Null) == Null
  {
    if v.Str? {
      match LenientIndex(k)
      case None =>
        assert Fetch(v, k).None?;
      case Some(i) =>
        assert Fetch(v, k) == CharAt(v.s, i);
    }
  }

  /** `empty($s[$k])` on a string: no `isset` offset in range, or the character "0" there. */
  lemma EmptyAtString(s: string, k: Key)
    ensures !EmptyAt(Str(s), k) <==>
              StrictIndex(k).Some? && CharAt(s, StrictIndex(k).value).Some?
              && CharAt(s, StrictIndex(k).value).value != Str("0")
  {
    match StrictIndex(k)
    case None =>
      assert Offset(Str(s), k).None?;
    case Some(i) =>
      assert Offset(Str(s), k) == CharAt(s, i);
      if 0 <= i < |s| {
        assert [s[i]] != "";
      } else if -|s| <= i < 0 {
        assert [s[|s| + i]] != "";
      }
  }

  /** A stored string other than "" and "0" is not empty. */
  lemma NonEmptyStringAt(es: seq<Entry>, k: Key, s: string)
    requires Find(es, k) == Some(Str(s)) && s != "" && s != "0"
    ensures !EmptyAt(Arr(es), k)
  {
    assert !Empty(Str(s));
  }

  /**
   * A plain read `$v[$k]` under PHP 8: a missing array element or an offset
   * into a scalar reads as null (with a warning), a string offset past the
   * end reads as "" (with a warning), and a string offset that does not
   * start with an integer throws a TypeError.
   */
  function Read(v: Value, k: Key): (r: Checked<Value>)
    ensures v.Arr? ==> r == Passes(Find(v.entries, k).GetOr(Null))
    ensures r.TypeError? <==> v.Str? && LenientIndex(k).None?
    ensures v.Str? && r.Passes? ==> r.value == Fetch(v, k).GetOr(Str(""))
  {
    match v
    case Arr(es) => Passes(Find(es, k).GetOr(Null))
    case Str(s) =>
      (match LenientIndex(k)
        case Some(i) => Passes(CharAt(s, i).GetOr(Str("")))
        case None => TypeError)
    case _ => Passes(Null)
  }

  /** The string PHP's `.` operator makes of a value (arrays become "Array", with a warning). */
  function ToString(v: Value): string {
    match v
    case Null => ""
    case Bool(b) => if b then "1" else ""
    case Int(i) => IntToString(i)
    case Float(r) => r
    case Str(s) => s
    case Arr(_) => "Array"
  }

  /** The string keys of an array, in order of their first appearance. */
  function StringKeys(es: seq<Entry>): (r: set<string>)
    ensures forall s :: s in r <==> HasKey(es, StrKey(s))
  {
    set j | 0 <= j < |es| && es[j].key.StrKey? :: es[j].key.s
  }

  /** The string keys of one entry. */
  lemma StringKeysSingle(e: Entry)
    ensures StringKeys([e]) == if e.key.StrKey? then {e.key.s} else {}
  {
    if e.key.StrKey? {
      assert [e][0].key == StrKey(e.key.s);
    }
  }

  /** The string keys of an array are those of its first entry and of the rest. */
  lemma StringKeysCons(es: seq<Entry>)
    requires es != []
    ensures StringKeys(es) == StringKeys([es[0]]) + StringKeys(es[1..])
  {
    var rest := es[1..];
    StringKeysSingle(es[0]);
    forall s ensures s in StringKeys(es) <==> s in StringKeys([es[0]]) || s in StringKeys(rest) {
      if s in StringKeys(es) && es[0].key != StrKey(s) {
        var j :| 0 <= j < |es| && es[j].key == StrKey(s);
        assert rest[j - 1].key == StrKey(s);
      }
      if s in StringKeys(rest) {
        var j :| 0 <= j < |rest| && rest[j].key == StrKey(s);
        assert es[j + 1].key == StrKey(s);
      }
    }
  }

  /** The values of an array stored under integer keys, in order. */
  function IntKeyedValues(es: seq<Entry>): (r: seq<Value>)
    ensures |r| <= |es|
  {
    if es == [] then []
    else (if es[0].key.IntKey? then [es[0].val] else []) + IntKeyedValues(es[1..])
  }
}
