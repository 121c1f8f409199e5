/**
 * URL query strings as `name=value` pairs joined by `&`, with a reader that
 * recovers the pairs. The writers in `Client` and `Engine` are checked
 * against this reader.
 */
module QueryParams {
  import opened PhpStrings

  datatype Param = Param(name: string, value: string)

  /** Text that holds neither separator of a query string. */
  predicate Clean(s: string) {
    '&' !in s && '=' !in s
  }

  /** A pair that the reader can recover: neither part holds `&` or `=`. */
  predicate Plain(p: Param) {
    Clean(p.name) && Clean(p.value)
  }

  function RenderParam(p: Param): string {
    p.name + "=" + p.value
  }

  /** The pairs written `name=value` and joined by `&`. */
  function Render(ps: seq<Param>): string {
    Join(seq(|ps|, i requires 0 <= i < |ps| => RenderParam(ps[i])), '&')
  }

  /**
   * Read one `name=value` piece: the name runs to the first `=` and the value
   * is everything after it; a piece without `=` has an empty value.
   */
  function ParseParam(piece: string): Param {
    var kv := Split(piece, '=');
    Param(kv[0], if |kv| > 1 then Join(kv[1..], '=') else "")
  }

  /** Read a query string back into its pairs. */
  function Parse(q: string): seq<Param> {
    var pieces := Split(q, '&');
    seq(|pieces|, i requires 0 <= i < |pieces| => ParseParam(pieces[i]))
  }

  /** Some pair carries exactly this name and value. */
  predicate HasParam(ps: seq<Param>, name: string, value: string) {
    Param(name, value) in ps
  }

  /**
   * Every pair written `name=value&`, in order: how a query is assembled
   * one flag at a time before its trailing `&` is trimmed.
   */
  function Terminated(ps: seq<Param>): string {
    if ps == [] then "" else RenderParam(ps[0]) + "&" + Terminated(ps[1..])
  }

  lemma ParseRenderParam(p: Param)
    requires Plain(p)
    ensures ParseParam(RenderParam(p)) == p
    ensures '&' !in RenderParam(p)
  {
    SplitJoin([p.name, p.value], '=');
    assert [p.name, p.value][1..] == [p.value];
    assert Join([p.name, p.value], '=') == RenderParam(p);
    assert Join([p.value], '=') == p.value;
  }

  /** Reading a rendered list of plain pairs gives the same pairs back. */
  lemma ParseRender(ps: seq<Param>)
    requires |ps| >= 1
    requires forall i :: 0 <= i < |ps| ==> Plain(ps[i])
    ensures Parse(Render(ps)) == ps
  {
    var pieces := seq(|ps|, i requires 0 <= i < |ps| => RenderParam(ps[i]));
    forall i | 0 <= i < |ps| ensures '&' !in pieces[i] && ParseParam(pieces[i]) == ps[i] {
      ParseRenderParam(ps[i]);
    }
    SplitJoin(pieces, '&');
  }

  /** A rendered non-empty list of plain pairs never ends with `&`. */
  lemma RenderNotTrailing(ps: seq<Param>)
    requires |ps| >= 1
    requires Plain(ps[|ps| - 1])
    ensures Render(ps) != [] && Render(ps)[|Render(ps)| - 1] != '&'
  {
    var pieces := seq(|ps|, i requires 0 <= i < |ps| => RenderParam(ps[i]));
    var last := RenderParam(ps[|ps| - 1]);
    ParseRenderParam(ps[|ps| - 1]);
    JoinEndsWithLast(pieces, '&');
    assert pieces[|pieces| - 1] == last;
    assert |last| >= 1;
    var j := Render(ps);
    assert j[|j| - |last|..][|last| - 1] == last[|last| - 1];
  }

  /** Writing `name=value&` for each pair gives the rendered list followed by one `&`. */
  lemma {:induction false} TerminatedRender(ps: seq<Param>)
    requires |ps| >= 1
    ensures Terminated(ps) == Render(ps) + "&"
    decreases |ps|
  {
    if |ps| > 1 {
      TerminatedRender(ps[1..]);
      var pieces := seq(|ps|, i requires 0 <= i < |ps| => RenderParam(ps[i]));
      var rest := seq(|ps[1..]|, i requires 0 <= i < |ps[1..]| => RenderParam(ps[1..][i]));
      assert pieces[1..] == rest;
    }
  }

  /** Assembling two lists one after the other is assembling their concatenation. */
  lemma {:induction false} TerminatedConcat(a: seq<Param>, b: seq<Param>)
    ensures Terminated(a + b) == Terminated(a) + Terminated(b)
    decreases |a|
  {
    if a != [] {
      TerminatedConcat(a[1..], b);
      assert (a + b)[1..] == a[1..] + b;
    } else {
      assert a + b == b;
    }
  }

  /** Trimming the trailing `&` of an assembled list of plain pairs gives exactly the rendered list. */
  lemma TrimTerminated(ps: seq<Param>)
    requires |ps| >= 1
    requires forall i :: 0 <= i < |ps| ==> Plain(ps[i])
    ensures Rtrim(Terminated(ps), '&') == Render(ps)
  {
    TerminatedRender(ps);
    RenderNotTrailing(ps);
    RtrimAppend(Render(ps), '&');
    RtrimKeeps(Render(ps), '&');
  }
}
