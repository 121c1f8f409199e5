/**
 * `Agent\Provenance` and `Agent\Bundle`: typed records built from the
 * `provenance` part of a decision. Their properties are typed `string`, so
 * under strict types a missing or non-string value fails construction.
 */
module Agent {
  import opened Wrappers
  import opened PhpValues

  datatype Bundle = Bundle(name: string, revision: string)

  datatype Provenance = Provenance(
    version: string,
    buildCommit: string,
    buildTimestamp: string,
    buildHostname: string,
    bundles: map<string, Bundle>)

  /** Assigning `$data[$key]` to a typed `string` property: only a string present under the key passes. */
  function StringField(data: seq<Entry>, key: string): (r: Checked<string>)
    ensures r.Passes? <==> Find(data, StrKey(key)).Some? && Find(data, StrKey(key)).value.Str?
    ensures r.Passes? ==> Find(data, StrKey(key)) == Some(Str(r.value))
  {
    match Find(data, StrKey(key))
    case Some(Str(s)) => Passes(s)
    case _ => TypeError
  }

  /**
   * `new Bundle($name, $data)`: the name as given and `data['revision']`,
   * which must be a string; every other key of `data` is ignored.
   */
  function NewBundle(name: string, data: seq<Entry>): (b: Checked<Bundle>)
    ensures b.Passes? <==> Find(data, StrKey("revision")).Some? && Find(data, StrKey("revision")).value.Str?
    ensures b.Passes? ==> b.value.name == name && Find(data, StrKey("revision")) == Some(Str(b.value.revision))
  {
    match StringField(data, "revision")
    case Passes(rev) => Passes(Bundle(name, rev))
    case TypeError => TypeError
  }

  /** Two data arrays that agree on `revision` make the same bundle. */
  lemma BundleIgnoresOtherKeys(name: string, d1: seq<Entry>, d2: seq<Entry>)
    requires Find(d1, StrKey("revision")) == Find(d2, StrKey("revision"))
    ensures NewBundle(name, d1) == NewBundle(name, d2)
  {
  }

  /**
   * An entry of `bundles` that makes a Bundle: its key is a string (the
   * name parameter is typed `string`), its value an array with a string
   * `revision`.
   */
  predicate ValidBundleEntry(e: Entry) {
    e.key.StrKey? && e.val.Arr? && NewBundle(e.key.s, e.val.entries).Passes?
  }

  /** The revision a valid entry's bundle carries. */
  function RevisionOf(e: Entry): string
    requires ValidBundleEntry(e)
  {
    NewBundle(e.key.s, e.val.entries).value.revision
  }

  /** `new Bundle($name, $data)` for one entry of `bundles`. */
  function BundleOf(e: Entry): (b: Checked<Bundle>)
    ensures b.Passes? <==> ValidBundleEntry(e)
    ensures b.Passes? ==> b.value == Bundle(e.key.s, RevisionOf(e))
  {
    if e.key.StrKey? && e.val.Arr? then NewBundle(e.key.s, e.val.entries) else TypeError
  }

  /** A map whose every bundle is stored under its own name. */
  predicate KeyedByName(m: map<string, Bundle>) {
    forall n :: n in m ==> m[n].name == n
  }

  /** The `foreach` over `bundles`: each entry's Bundle is stored under its name, in order. */
  function BundlesInto(acc: map<string, Bundle>, es: seq<Entry>): (r: Checked<map<string, Bundle>>)
    ensures r.Passes? <==> forall j :: 0 <= j < |es| ==> ValidBundleEntry(es[j])
    decreases |es|
  {
    if es == [] then Passes(acc)
    else
      match BundleOf(es[0])
      case TypeError => TypeError
      case Passes(b) =>
        var r := BundlesInto(acc[b.name := b], es[1..]);
        assert forall j :: 1 <= j < |es| ==> es[j] == es[1..][j - 1];
        r
  }

  /** The loop adds exactly the entries' keys to the map, each bundle under its own name. */
  lemma {:induction false} BundlesIntoKeys(acc: map<string, Bundle>, es: seq<Entry>)
    requires BundlesInto(acc, es).Passes?
    ensures BundlesInto(acc, es).value.Keys == acc.Keys + StringKeys(es)
    ensures KeyedByName(acc) ==> KeyedByName(BundlesInto(acc, es).value)
    decreases |es|
  {
    if es != [] {
      assert ValidBundleEntry(es[0]);
      var b := BundleOf(es[0]).value;
      var rest := es[1..];
      var next := acc[b.name := b];
      assert BundlesInto(acc, es) == BundlesInto(next, rest);
      BundlesIntoKeys(next, rest);
      StringKeysCons(es);
      StringKeysSingle(es[0]);
      assert StringKeys([es[0]]) == {b.name};
      assert next.Keys == acc.Keys + {b.name};
      if KeyedByName(acc) {
        assert KeyedByName(next);
      }
    }
  }

  /** Under unique keys, every entry's bundle is the one stored under its key. */
  lemma {:induction false} BundlesIntoValues(acc: map<string, Bundle>, es: seq<Entry>)
    requires BundlesInto(acc, es).Passes?
    requires UniqueKeys(es)
    ensures forall j :: 0 <= j < |es| ==>
              ValidBundleEntry(es[j]) && es[j].key.s in BundlesInto(acc, es).value
              && BundlesInto(acc, es).value[es[j].key.s] == Bundle(es[j].key.s, RevisionOf(es[j]))
    decreases |es|
  {
    if es != [] {
      assert ValidBundleEntry(es[0]);
      var b := BundleOf(es[0]).value;
      var next := acc[b.name := b];
      var rest := es[1..];
      assert forall j :: 0 <= j < |rest| ==> rest[j] == es[j + 1];
      assert UniqueKeys(rest) by {
        forall a, c | 0 <= a < c < |rest| ensures rest[a].key != rest[c].key {
          assert rest[a] == es[a + 1] && rest[c] == es[c + 1];
        }
      }
      BundlesIntoValues(next, rest);
      var r := BundlesInto(next, rest).value;
      assert BundlesInto(acc, es).value == r;
      assert b.name !in StringKeys(rest) by {
        forall i | 0 <= i < |rest| ensures rest[i].key != StrKey(b.name) {
          assert rest[i] == es[i + 1];
        }
      }
      BundlesIntoKeeps(next, rest, b.name);
      forall j | 0 <= j < |es|
        ensures ValidBundleEntry(es[j]) && es[j].key.s in r && r[es[j].key.s] == Bundle(es[j].key.s, RevisionOf(es[j]))
      {
        if j > 0 {
          assert rest[j - 1] == es[j];
        }
      }
    }
  }

  /** The loop as the constructor runs it, from an empty map. */
  lemma BundlesFromScratch(es: seq<Entry>)
    requires BundlesInto(map[], es).Passes?
    ensures BundlesInto(map[], es).value.Keys == StringKeys(es)
    ensures KeyedByName(BundlesInto(map[], es).value)
    ensures UniqueKeys(es) ==>
              forall j :: 0 <= j < |es| ==>
                ValidBundleEntry(es[j]) && BundlesInto(map[], es).value[es[j].key.s] == Bundle(es[j].key.s, RevisionOf(es[j]))
  {
    BundlesIntoKeys(map[], es);
    if UniqueKeys(es) {
      BundlesIntoValues(map[], es);
    }
  }

  /** A name no remaining entry carries keeps its bundle. */
  lemma {:induction false} BundlesIntoKeeps(acc: map<string, Bundle>, es: seq<Entry>, n: string)
    requires BundlesInto(acc, es).Passes?
    requires n in acc && n !in StringKeys(es)
    ensures n in BundlesInto(acc, es).value && BundlesInto(acc, es).value[n] == acc[n]
    decreases |es|
  {
    if es != [] {
      var b := BundleOf(es[0]).value;
      assert es[0].key.s != n;
      var rest := es[1..];
      assert n !in StringKeys(rest) by {
        forall i | 0 <= i < |rest| ensures rest[i].key != StrKey(n) {
          assert rest[i] == es[i + 1];
        }
      }
      assert forall j :: 0 <= j < |rest| ==> rest[j] == es[j + 1];
      BundlesIntoKeeps(acc[b.name := b], rest, n);
    }
  }

  /**
   * `new Provenance($data)`: the four build fields copied, each of which
   * must be a string, and one Bundle per entry of `bundles`, stored under
   * that entry's key; a `bundles` that is absent or not an array is skipped.
   */
  function NewProvenance(data: seq<Entry>): (p: Checked<Provenance>)
    ensures p.Passes? ==>
              Find(data, StrKey("version")) == Some(Str(p.value.version))
              && Find(data, StrKey("build_commit")) == Some(Str(p.value.buildCommit))
              && Find(data, StrKey("build_timestamp")) == Some(Str(p.value.buildTimestamp))
              && Find(data, StrKey("build_hostname")) == Some(Str(p.value.buildHostname))
    ensures p.Passes? ==> KeyedByName(p.value.bundles)
    ensures p.Passes? && !(Find(data, StrKey("bundles")).Some? && Find(data, StrKey("bundles")).value.Arr?) ==>
              p.value.bundles == map[]
    ensures p.Passes? && Find(data, StrKey("bundles")).Some? && Find(data, StrKey("bundles")).value.Arr? ==>
              var es := Find(data, StrKey("bundles")).value.entries;
              p.value.bundles.Keys == StringKeys(es)
              && (forall j :: 0 <= j < |es| ==> ValidBundleEntry(es[j]))
              && (UniqueKeys(es) ==>
                    forall j :: 0 <= j < |es| ==> p.value.bundles[es[j].key.s] == Bundle(es[j].key.s, RevisionOf(es[j])))
    ensures p.TypeError? <==>
              StringField(data, "version").TypeError? || StringField(data, "build_commit").TypeError?
              || StringField(data, "build_timestamp").TypeError? || StringField(data, "build_hostname").TypeError?
              || (Find(data, StrKey("bundles")).Some? && Find(data, StrKey("bundles")).value.Arr?
                  && exists j :: 0 <= j < |Find(data, StrKey("bundles")).value.entries|
                                 && !ValidBundleEntry(Find(data, StrKey("bundles")).value.entries[j]))
  {
    match (StringField(data, "version"), StringField(data, "build_commit"),
           StringField(data, "build_timestamp"), StringField(data, "build_hostname"))
    case (Passes(v), Passes(c), Passes(t), Passes(h)) =>
      var bundles := Find(data, StrKey("bundles"));
      if bundles.Some? && bundles.value.Arr? then
        match BundlesInto(map[], bundles.value.entries)
        case Passes(m) =>
          BundlesFromScratch(bundles.value.entries);
          Passes(Provenance(v, c, t, h, m))
        case TypeError => TypeError
      else Passes(Provenance(v, c, t, h, map[]))
    case _ => TypeError
  }
}
