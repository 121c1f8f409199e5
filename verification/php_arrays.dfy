/**
 * The PHP array functions the library relies on: `array_merge`,
 * `array_merge_recursive`, `array_replace_recursive`, `array_filter` (without
 * a callback) and `array_values`.
 *
 * Each is a left fold over the source array that assigns string keys with
 * `$a[$k] = $v` (`PhpValues.Set`) and appends integer keys with `$a[] = $v`
 * (`PhpValues.Push`), so integer keys are renumbered while string keys keep
 * their first position.
 */
module PhpArrays {
  import opened Wrappers
  import opened PhpValues

  /**
   * The integer keys of an array are exactly 0..|vs|-1, holding `vs` in order.
   * A list has this shape, and so has every result of `array_merge`.
   */
  ghost predicate IntPart(es: seq<Entry>, vs: seq<Value>) {
    forall i :: Find(es, IntKey(i)) == (if 0 <= i < |vs| then Some(vs[i]) else None)
  }

  lemma {:induction false} NextFreeAtMost(es: seq<Entry>, m: nat)
    requires forall j :: 0 <= j < |es| && es[j].key.IntKey? ==> es[j].key.i < m
    ensures NextFree(es) <= m
  {
    if es != [] {
      assert forall j :: 0 <= j < |es[1..]| ==> es[1..][j] == es[j + 1];
      NextFreeAtMost(es[1..], m);
    }
  }

  /** In an array whose integer part is `vs`, the next free index is |vs|. */
  lemma NextFreeOfIntPart(es: seq<Entry>, vs: seq<Value>)
    requires IntPart(es, vs)
    ensures NextFree(es) == |vs|
  {
    forall j | 0 <= j < |es| && es[j].key.IntKey?
      ensures 0 <= es[j].key.i < |vs|
    {
      assert HasKey(es, es[j].key);
      assert Find(es, IntKey(es[j].key.i)).Some?;
    }
    NextFreeAtMost(es, |vs|);
    if |vs| > 0 {
      assert Find(es, IntKey(|vs| - 1)).Some?;
      var j :| 0 <= j < |es| && es[j].key == IntKey(|vs| - 1);
    }
  }

  lemma PushIntPart(es: seq<Entry>, vs: seq<Value>, v: Value)
    requires IntPart(es, vs)
    ensures IntPart(Push(es, v), vs + [v])
  {
    NextFreeOfIntPart(es, vs);
    var r := Push(es, v);
    assert r == es + [Entry(IntKey(|vs|), v)];
    forall i ensures Find(r, IntKey(i)) == (if 0 <= i < |vs| + 1 then Some((vs + [v])[i]) else None) {
      FindAppend(es, Entry(IntKey(|vs|), v), IntKey(i));
    }
  }

  lemma SetStrIntPart(es: seq<Entry>, vs: seq<Value>, s: string, v: Value)
    requires IntPart(es, vs)
    ensures IntPart(Set(es, StrKey(s), v), vs)
  {
    forall i ensures Find(Set(es, StrKey(s), v), IntKey(i)) == Find(es, IntKey(i)) {
    }
  }

  lemma IntKeyedValuesStep(vs: seq<Value>, src: seq<Entry>)
    requires src != []
    ensures (if src[0].key.StrKey? then vs else vs + [src[0].val]) + IntKeyedValues(src[1..])
            == vs + IntKeyedValues(src)
  {
    if src[0].key.IntKey? {
      assert IntKeyedValues(src) == [src[0].val] + IntKeyedValues(src[1..]);
    }
  }

  lemma PushFindOther(es: seq<Entry>, v: Value, k: Key)
    requires k != IntKey(NextFree(es))
    ensures Find(Push(es, v), k) == Find(es, k)
  {
    FindAppend(es, Entry(IntKey(NextFree(es)), v), k);
  }

  // ---------------------------------------------------------------------------
  // array_merge
  // ---------------------------------------------------------------------------

  /** One step of `array_merge`: assign a string key, append an integer-keyed value. */
  function MergeStep(acc: seq<Entry>, e: Entry): seq<Entry> {
    if e.key.StrKey? then Set(acc, e.key, e.val) else Push(acc, e.val)
  }

  /** Merge the entries of `src` into `dest`, in order. */
  function MergeInto(dest: seq<Entry>, src: seq<Entry>): seq<Entry>
    decreases |src|
  {
    if src == [] then dest else MergeInto(MergeStep(dest, src[0]), src[1..])
  }

  /** `array_merge($a, $b)`. */
  function ArrayMerge(a: seq<Entry>, b: seq<Entry>): seq<Entry> {
    MergeInto(MergeInto([], a), b)
  }

  lemma {:induction false} MergeIntoUnique(dest: seq<Entry>, src: seq<Entry>)
    requires UniqueKeys(dest)
    ensures UniqueKeys(MergeInto(dest, src))
    decreases |src|
  {
    if src != [] {
      if src[0].key.StrKey? {
        SetUnique(dest, src[0].key, src[0].val);
      }
      MergeIntoUnique(MergeStep(dest, src[0]), src[1..]);
    }
  }

  lemma {:induction false} MergeIntoIntPart(dest: seq<Entry>, vs: seq<Value>, src: seq<Entry>)
    requires IntPart(dest, vs)
    ensures IntPart(MergeInto(dest, src), vs + IntKeyedValues(src))
    decreases |src|
  {
    if src == [] {
      assert vs + IntKeyedValues(src) == vs;
    } else {
      var e := src[0];
      var next := MergeStep(dest, e);
      var vs' := if e.key.StrKey? then vs else vs + [e.val];
      assert IntPart(next, vs') by {
        if e.key.StrKey? {
          SetStrIntPart(dest, vs, e.key.s, e.val);
        } else {
          PushIntPart(dest, vs, e.val);
        }
      }
      IntKeyedValuesStep(vs, src);
      MergeIntoIntPart(next, vs', src[1..]);
      assert MergeInto(dest, src) == MergeInto(next, src[1..]);
    }
  }



  lemma {:induction false} MergeIntoStrKey(dest: seq<Entry>, src: seq<Entry>, s: string)
    requires UniqueKeys(src)
    ensures Find(MergeInto(dest, src), StrKey(s)) ==
              if HasKey(src, StrKey(s)) then Find(src, StrKey(s)) else Find(dest, StrKey(s))
    decreases |src|
  {
    if src != [] {
      var e := src[0];
      var next := MergeStep(dest, e);
      assert UniqueKeys(src[1..]) by {
        forall a, b | 0 <= a < b < |src[1..]| ensures src[1..][a].key != src[1..][b].key {
          assert src[1..][a] == src[a + 1] && src[1..][b] == src[b + 1];
        }
      }
      MergeIntoStrKey(next, src[1..], s);
      if e.key.IntKey? {
        PushFindOther(dest, e.val, StrKey(s));
      }
      if e.key == StrKey(s) {
        forall j | 0 <= j < |src[1..]| ensures src[1..][j].key != StrKey(s) {
          assert src[1..][j] == src[j + 1];
        }
      }
    }
  }

  /** The string keys of an `array_merge` are those of both arrays. */
  lemma {:induction false} MergeIntoStrKeys(dest: seq<Entry>, src: seq<Entry>)
    ensures StringKeys(MergeInto(dest, src)) == StringKeys(dest) + StringKeys(src)
    decreases |src|
  {
    if src != [] {
      var e := src[0];
      var next := MergeStep(dest, e);
      MergeIntoStrKeys(next, src[1..]);
      StringKeysCons(src);
      StringKeysSingle(e);
      if e.key.IntKey? {
        forall s ensures Find(next, StrKey(s)) == Find(dest, StrKey(s)) {
          PushFindOther(dest, e.val, StrKey(s));
        }
      }
      assert StringKeys(next) == StringKeys(dest) + StringKeys([e]) by {
        forall s ensures s in StringKeys(next) <==> s in StringKeys(dest) + StringKeys([e]) {
          assert HasKey(next, StrKey(s)) <==> Find(next, StrKey(s)).Some?;
        }
      }
    }
  }

  /**
   * `array_merge($a, $b)` on arrays with unique keys: a string key takes its
   * value from `b` when `b` has it and from `a` otherwise; the integer-keyed
   * values of `a` and then of `b` are renumbered 0, 1, ...; keys stay unique.
   */
  lemma ArrayMergeSpec(a: seq<Entry>, b: seq<Entry>)
    requires UniqueKeys(a) && UniqueKeys(b)
    ensures UniqueKeys(ArrayMerge(a, b))
    ensures forall s :: Find(ArrayMerge(a, b), StrKey(s)) ==
              if HasKey(b, StrKey(s)) then Find(b, StrKey(s)) else Find(a, StrKey(s))
    ensures forall i :: Find(ArrayMerge(a, b), IntKey(i)) ==
              var vs := IntKeyedValues(a) + IntKeyedValues(b);
              if 0 <= i < |vs| then Some(vs[i]) else None
  {
    MergeIntoUnique([], a);
    MergeIntoUnique(MergeInto([], a), b);
    forall s ensures Find(ArrayMerge(a, b), StrKey(s)) ==
                       if HasKey(b, StrKey(s)) then Find(b, StrKey(s)) else Find(a, StrKey(s))
    {
      MergeIntoStrKey(MergeInto([], a), b, s);
      MergeIntoStrKey([], a, s);
    }
    assert IntPart([], []);
    MergeIntoIntPart([], [], a);
    assert [] + IntKeyedValues(a) == IntKeyedValues(a);
    MergeIntoIntPart(MergeInto([], a), IntKeyedValues(a), b);
  }

  // ---------------------------------------------------------------------------
  // array_filter and array_values
  // ---------------------------------------------------------------------------

  /** `array_filter($a)` without a callback: keep the entries whose value is truthy, keys unchanged. */
  function FilterTruthy(es: seq<Entry>): (r: seq<Entry>)
    ensures forall j :: 0 <= j < |r| ==> !Empty(r[j].val) && r[j] in es
    ensures forall j :: 0 <= j < |es| && !Empty(es[j].val) ==> es[j] in r
  {
    if es == [] then []
    else
      var rest := FilterTruthy(es[1..]);
      assert forall j :: 1 <= j < |es| ==> es[j] == es[1..][j - 1];
      if Empty(es[0].val) then rest else [es[0]] + rest
  }

  /** `array_values($a)`: the values in order, renumbered as a list. */
  function Values(es: seq<Entry>): (r: seq<Entry>)
    ensures |r| == |es|
    ensures forall i :: 0 <= i < |r| ==> r[i] == Entry(IntKey(i), es[i].val)
  {
    List(seq(|es|, i requires 0 <= i < |es| => es[i].val))
  }

  /** The values of an array, in order, without their keys. */
  function ValuesOf(es: seq<Entry>): (vs: seq<Value>)
    ensures |vs| == |es|
    ensures forall i :: 0 <= i < |es| ==> vs[i] == es[i].val
  {
    seq(|es|, i requires 0 <= i < |es| => es[i].val)
  }

  /** The truthy values of a sequence, in order: the reference for `array_filter`. */
  function KeepTruthy(vs: seq<Value>): seq<Value> {
    if vs == [] then []
    else (if Empty(vs[0]) then [] else [vs[0]]) + KeepTruthy(vs[1..])
  }

  /** `array_filter` keeps exactly the truthy values, in their order. */
  lemma {:induction false} FilterTruthyValues(es: seq<Entry>)
    ensures ValuesOf(FilterTruthy(es)) == KeepTruthy(ValuesOf(es))
  {
    if es != [] {
      var vs := ValuesOf(es);
      var rest := FilterTruthy(es[1..]);
      FilterTruthyValues(es[1..]);
      assert vs[1..] == ValuesOf(es[1..]);
      assert KeepTruthy(vs) == (if Empty(vs[0]) then [] else [vs[0]]) + KeepTruthy(vs[1..]);
      if Empty(es[0].val) {
        assert FilterTruthy(es) == rest;
      } else {
        assert FilterTruthy(es) == [es[0]] + rest;
        assert ValuesOf([es[0]] + rest) == [es[0].val] + ValuesOf(rest);
      }
    }
  }

  /** `array_values(array_filter($list))` is the list of its truthy values. */
  lemma FilteredList(vs: seq<Value>)
    ensures Values(FilterTruthy(List(vs))) == List(KeepTruthy(vs))
  {
    FilterTruthyValues(List(vs));
    assert ValuesOf(List(vs)) == vs;
    var f := FilterTruthy(List(vs));
    assert ValuesOf(f) == KeepTruthy(vs);
    assert Values(f) == List(ValuesOf(f));
  }

  // ---------------------------------------------------------------------------
  // array_merge_recursive
  // ---------------------------------------------------------------------------

  /**
   * What `array_merge_recursive` stores under a string key both arrays have:
   * the existing value becomes an array (a scalar or null `d` becomes
   * `[d]`), then an array `s` is merged into it recursively and any other
   * `s` is appended.
   */
  function Combine(d: Value, s: Value): (r: Value)
    ensures r.Arr?
    decreases s, 0
  {
    var da := if d.Arr? then d.entries else [Entry(IntKey(0), d)];
    if s.Arr? then Arr(MergeRecursiveInto(da, s.entries)) else Arr(Push(da, s))
  }

  function MergeRecursiveStep(acc: seq<Entry>, e: Entry): seq<Entry>
    decreases e, 1
  {
    if e.key.IntKey? then Push(acc, e.val)
    else
      match Find(acc, e.key)
      case Some(d) => Set(acc, e.key, Combine(d, e.val))
      case None => Set(acc, e.key, e.val)
  }

  /** `php_array_merge_recursive`: merge the entries of `src` into `dest`, in order. */
  function MergeRecursiveInto(dest: seq<Entry>, src: seq<Entry>): seq<Entry>
    decreases src, 2
  {
    if src == [] then dest
    else MergeRecursiveInto(MergeRecursiveStep(dest, src[0]), src[1..])
  }

  /** `array_merge_recursive($a, $b)`: `a` is copied with its integer keys renumbered, then `b` merged in. */
  function ArrayMergeRecursive(a: seq<Entry>, b: seq<Entry>): seq<Entry> {
    MergeRecursiveInto(MergeInto([], a), b)
  }

  lemma {:induction false} MergeRecursiveIntoUnique(dest: seq<Entry>, src: seq<Entry>)
    requires UniqueKeys(dest)
    ensures UniqueKeys(MergeRecursiveInto(dest, src))
    decreases |src|
  {
    if src != [] {
      var e := src[0];
      if e.key.StrKey? {
        match Find(dest, e.key)
        case Some(d) => SetUnique(dest, e.key, Combine(d, e.val));
        case None => SetUnique(dest, e.key, e.val);
      }
      MergeRecursiveIntoUnique(MergeRecursiveStep(dest, e), src[1..]);
    }
  }

  lemma {:induction false} MergeRecursiveIntoIntPart(dest: seq<Entry>, vs: seq<Value>, src: seq<Entry>)
    requires IntPart(dest, vs)
    ensures IntPart(MergeRecursiveInto(dest, src), vs + IntKeyedValues(src))
    decreases |src|
  {
    if src == [] {
      assert vs + IntKeyedValues(src) == vs;
    } else {
      var e := src[0];
      var next := MergeRecursiveStep(dest, e);
      var vs' := if e.key.StrKey? then vs else vs + [e.val];
      assert IntPart(next, vs') by {
        if e.key.StrKey? {
          match Find(dest, e.key)
          case Some(d) => SetStrIntPart(dest, vs, e.key.s, Combine(d, e.val));
          case None => SetStrIntPart(dest, vs, e.key.s, e.val);
        } else {
          PushIntPart(dest, vs, e.val);
        }
      }
      IntKeyedValuesStep(vs, src);
      MergeRecursiveIntoIntPart(next, vs', src[1..]);
      assert MergeRecursiveInto(dest, src) == MergeRecursiveInto(next, src[1..]);
    }
  }



  /** A string key of the result is a string key of the destination or of the source, and conversely. */
  lemma {:induction false} MergeRecursiveIntoStrKeys(dest: seq<Entry>, src: seq<Entry>)
    ensures StringKeys(MergeRecursiveInto(dest, src)) == StringKeys(dest) + StringKeys(src)
    decreases |src|
  {
    if src != [] {
      var e := src[0];
      var next := MergeRecursiveStep(dest, e);
      MergeRecursiveIntoStrKeys(next, src[1..]);
      StringKeysCons(src);
      MergeRecursiveStepStrKeys(dest, e);
    }
  }

  /** One step of `array_merge_recursive` adds exactly the entry's string key, if it has one. */
  lemma MergeRecursiveStepStrKeys(dest: seq<Entry>, e: Entry)
    ensures StringKeys(MergeRecursiveStep(dest, e)) == StringKeys(dest) + StringKeys([e])
  {
    var next := MergeRecursiveStep(dest, e);
    if e.key.IntKey? {
      forall s ensures Find(next, StrKey(s)) == Find(dest, StrKey(s)) {
        PushFindOther(dest, e.val, StrKey(s));
      }
    }
    StringKeysSingle(e);
    forall s ensures s in StringKeys(next) <==> s in StringKeys(dest) + StringKeys([e]) {
      assert HasKey(next, StrKey(s)) <==> Find(next, StrKey(s)).Some?;
    }
  }

  /** A string key the source lacks keeps the destination's value. */
  lemma {:induction false} MergeRecursiveIntoKeepsDest(dest: seq<Entry>, src: seq<Entry>, s: string)
    requires !HasKey(src, StrKey(s))
    ensures Find(MergeRecursiveInto(dest, src), StrKey(s)) == Find(dest, StrKey(s))
    decreases |src|
  {
    if src != [] {
      var e := src[0];
      assert e.key != StrKey(s);
      assert !HasKey(src[1..], StrKey(s)) by {
        forall j | 0 <= j < |src[1..]| ensures src[1..][j].key != StrKey(s) {
          assert src[1..][j] == src[j + 1];
        }
      }
      if e.key.IntKey? {
        PushFindOther(dest, e.val, StrKey(s));
      }
      MergeRecursiveIntoKeepsDest(MergeRecursiveStep(dest, e), src[1..], s);
    }
  }

  /** A string key only the source has takes the source's value; one both have is combined. */
  lemma {:induction false} MergeRecursiveIntoSrcKey(dest: seq<Entry>, src: seq<Entry>, j: nat)
    requires UniqueKeys(src)
    requires j < |src| && src[j].key.StrKey?
    ensures Find(MergeRecursiveInto(dest, src), src[j].key) ==
              match Find(dest, src[j].key)
              case Some(d) => Some(Combine(d, src[j].val))
              case None => Some(src[j].val)
    decreases |src|
  {
    var e := src[0];
    var next := MergeRecursiveStep(dest, e);
    assert UniqueKeys(src[1..]) by {
      forall a, b | 0 <= a < b < |src[1..]| ensures src[1..][a].key != src[1..][b].key {
        assert src[1..][a] == src[a + 1] && src[1..][b] == src[b + 1];
      }
    }
    if j == 0 {
      assert !HasKey(src[1..], e.key) by {
        forall i | 0 <= i < |src[1..]| ensures src[1..][i].key != e.key {
          assert src[1..][i] == src[i + 1];
        }
      }
      MergeRecursiveIntoKeepsDest(next, src[1..], e.key.s);
    } else {
      assert src[1..][j - 1] == src[j];
      assert e.key != src[j].key;
      if e.key.IntKey? {
        PushFindOther(dest, e.val, src[j].key);
      }
      assert Find(next, src[j].key) == Find(dest, src[j].key);
      MergeRecursiveIntoSrcKey(next, src[1..], j - 1);
    }
  }

  // ---------------------------------------------------------------------------
  // array_replace_recursive
  // ---------------------------------------------------------------------------

  function ReplaceStep(acc: seq<Entry>, e: Entry): seq<Entry>
    decreases e, 1
  {
    match Find(acc, e.key)
    case Some(Arr(d)) =>
      if e.val.Arr? then Set(acc, e.key, Arr(ReplaceRecursive(d, e.val.entries)))
      else Set(acc, e.key, e.val)
    case _ => Set(acc, e.key, e.val)
  }

  /**
   * `array_replace_recursive($dest, $src)`: every key of `src` is assigned
   * into `dest`, except that when both hold arrays under the key the two are
   * replaced recursively. Integer keys are kept, not renumbered.
   */
  function ReplaceRecursive(dest: seq<Entry>, src: seq<Entry>): seq<Entry>
    decreases src, 2
  {
    if src == [] then dest
    else ReplaceRecursive(ReplaceStep(dest, src[0]), src[1..])
  }

  /** A key the source lacks keeps the destination's value. */
  lemma {:induction false} ReplaceKeepsDest(dest: seq<Entry>, src: seq<Entry>, k: Key)
    requires !HasKey(src, k)
    ensures Find(ReplaceRecursive(dest, src), k) == Find(dest, k)
    decreases |src|
  {
    if src != [] {
      assert src[0].key != k;
      assert !HasKey(src[1..], k) by {
        forall j | 0 <= j < |src[1..]| ensures src[1..][j].key != k {
          assert src[1..][j] == src[j + 1];
        }
      }
      ReplaceKeepsDest(ReplaceStep(dest, src[0]), src[1..], k);
    }
  }

  /**
   * A key of the source whose value is not an array, or that the destination
   * does not hold as an array, ends up with exactly the source's value.
   */
  lemma {:induction false} ReplaceTakesSrc(dest: seq<Entry>, src: seq<Entry>, j: nat)
    requires UniqueKeys(src)
    requires j < |src|
    requires !src[j].val.Arr? || !(Find(dest, src[j].key).Some? && Find(dest, src[j].key).value.Arr?)
    ensures Find(ReplaceRecursive(dest, src), src[j].key) == Some(src[j].val)
    decreases |src|
  {
    var e := src[0];
    var next := ReplaceStep(dest, e);
    assert UniqueKeys(src[1..]) by {
      forall a, b | 0 <= a < b < |src[1..]| ensures src[1..][a].key != src[1..][b].key {
        assert src[1..][a] == src[a + 1] && src[1..][b] == src[b + 1];
      }
    }
    if j == 0 {
      assert !HasKey(src[1..], e.key) by {
        forall i | 0 <= i < |src[1..]| ensures src[1..][i].key != e.key {
          assert src[1..][i] == src[i + 1];
        }
      }
      assert Find(next, e.key) == Some(e.val);
      ReplaceKeepsDest(next, src[1..], e.key);
    } else {
      assert src[1..][j - 1] == src[j];
      assert e.key != src[j].key;
      assert Find(next, src[j].key) == Find(dest, src[j].key);
      ReplaceTakesSrc(next, src[1..], j - 1);
    }
  }

  /** The keys of the result are the keys of the destination and of the source. */
  lemma {:induction false} ReplaceKeys(dest: seq<Entry>, src: seq<Entry>, k: Key)
    ensures HasKey(ReplaceRecursive(dest, src), k) <==> HasKey(dest, k) || HasKey(src, k)
    decreases |src|
  {
    if src != [] {
      var next := ReplaceStep(dest, src[0]);
      ReplaceKeys(next, src[1..], k);
      assert HasKey(next, k) <==> Find(next, k).Some?;
      assert HasKey(src, k) <==> src[0].key == k || HasKey(src[1..], k) by {
        if HasKey(src, k) && src[0].key != k {
          var j :| 0 <= j < |src| && src[j].key == k;
          assert src[1..][j - 1].key == k;
        }
        if HasKey(src[1..], k) {
          var j :| 0 <= j < |src[1..]| && src[1..][j].key == k;
          assert src[j + 1].key == k;
        }
        if src[0].key == k {
          assert src[0].key == k;
        }
      }
    }
  }
}
