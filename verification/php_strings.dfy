/** The PHP string functions the library relies on: `rtrim`, `explode`, `implode` and `strpos`. */
module PhpStrings {
  import opened Wrappers

  /** `rtrim($s, $c)` for a single character: drop every trailing `c`. */
  function Rtrim(s: string, c: char): (r: string)
    ensures r <= s
    ensures r == [] || r[|r| - 1] != c
    ensures forall i :: |r| <= i < |s| ==> s[i] == c
    decreases |s|
  {
    if s != [] && s[|s| - 1] == c then
      var r := Rtrim(s[..|s| - 1], c);
      assert s[..|s| - 1] <= s;
      r
    else s
  }

  /** Trimming a string that already ends in something other than `c` changes nothing. */
  lemma RtrimKeeps(s: string, c: char)
    requires s == [] || s[|s| - 1] != c
    ensures Rtrim(s, c) == s
  {
  }

  /** An extra trailing `c` is trimmed away with the rest. */
  lemma RtrimAppend(s: string, c: char)
    ensures Rtrim(s + [c], c) == Rtrim(s, c)
  {
    assert (s + [c])[..|s + [c]| - 1] == s;
  }

  /** Trimming and appending one `c` is idempotent: the result is already in that form. */
  lemma RtrimThenAppend(s: string, c: char)
    ensures Rtrim(Rtrim(s, c) + [c], c) + [c] == Rtrim(s, c) + [c]
  {
    var t := Rtrim(s, c);
    RtrimAppend(t, c);
    RtrimKeeps(t, c);
  }

  /** `explode($sep, $s)` for a one-character separator: the pieces between separators. */
  function Split(s: string, sep: char): (r: seq<string>)
    ensures |r| >= 1
    ensures forall i :: 0 <= i < |r| ==> sep !in r[i]
    decreases |s|
  {
    if s == [] then [""]
    else
      var rest := Split(s[1..], sep);
      if s[0] == sep then [""] + rest
      else [[s[0]] + rest[0]] + rest[1..]
  }

  /** `implode($sep, $parts)`. */
  function Join(parts: seq<string>, sep: char): string
    decreases |parts|
  {
    if parts == [] then ""
    else if |parts| == 1 then parts[0]
    else parts[0] + [sep] + Join(parts[1..], sep)
  }

  /** A join ends with its last part. */
  lemma {:induction false} JoinEndsWithLast(parts: seq<string>, sep: char)
    requires |parts| >= 1
    ensures |parts[|parts| - 1]| <= |Join(parts, sep)|
    ensures Join(parts, sep)[|Join(parts, sep)| - |parts[|parts| - 1]|..] == parts[|parts| - 1]
    decreases |parts|
  {
    if |parts| > 1 {
      JoinEndsWithLast(parts[1..], sep);
      assert parts[1..][|parts[1..]| - 1] == parts[|parts| - 1];
    }
  }

  /** Splitting and joining again gives back the original string. */
  lemma {:induction false} JoinSplit(s: string, sep: char)
    ensures Join(Split(s, sep), sep) == s
    decreases |s|
  {
    if s != [] {
      var rest := Split(s[1..], sep);
      JoinSplit(s[1..], sep);
      if s[0] == sep {
        assert ([""] + rest)[1..] == rest;
      } else {
        var r := [[s[0]] + rest[0]] + rest[1..];
        if |rest| == 1 {
          assert r == [[s[0]] + rest[0]];
        } else {
          assert r[1..] == rest[1..];
          assert Join(rest, sep) == rest[0] + [sep] + Join(rest[1..], sep);
        }
      }
    }
  }

  /** A join whose first part is non-empty starts with that part's first character. */
  lemma JoinFirstChar(parts: seq<string>, sep: char)
    requires |parts| >= 1 && |parts[0]| > 0
    ensures Join(parts, sep) == [parts[0][0]] + Join([parts[0][1..]] + parts[1..], sep)
  {
    var p0 := parts[0];
    var shorter := [p0[1..]] + parts[1..];
    assert p0 == [p0[0]] + p0[1..];
    if |parts| > 1 {
      assert shorter[1..] == parts[1..];
    }
  }

  /** Pieces free of the separator are recovered by splitting their join. */
  lemma {:induction false} SplitJoin(parts: seq<string>, sep: char)
    requires |parts| >= 1
    requires forall i :: 0 <= i < |parts| ==> sep !in parts[i]
    ensures Split(Join(parts, sep), sep) == parts
    decreases |parts|, |parts[0]|
  {
    if |parts[0]| > 0 {
      var p0 := parts[0];
      var shorter := [p0[1..]] + parts[1..];
      assert forall i :: 0 <= i < |shorter| ==> sep !in shorter[i] by {
        forall i | 0 <= i < |shorter| ensures sep !in shorter[i] {
          if i == 0 {
            assert forall c :: c in p0[1..] ==> c in p0;
          } else {
            assert shorter[i] == parts[i];
          }
        }
      }
      SplitJoin(shorter, sep);
      var j := Join(parts, sep);
      JoinFirstChar(parts, sep);
      assert j[1..] == Join(shorter, sep);
      assert j[0] == p0[0] && p0[0] != sep;
      assert p0 == [p0[0]] + p0[1..];
    } else if |parts| > 1 {
      var tail := parts[1..];
      assert forall i :: 0 <= i < |tail| ==> sep !in tail[i] by {
        forall i | 0 <= i < |tail| ensures sep !in tail[i] {
          assert tail[i] == parts[i + 1];
        }
      }
      SplitJoin(tail, sep);
      var j := Join(parts, sep);
      assert j == [sep] + Join(tail, sep);
      assert j[1..] == Join(tail, sep);
      assert parts == [""] + tail;
    }
  }

  /**
   * `strpos($haystack, $needle)` under PHP 8: the first position at which
   * `needle` occurs (an empty needle occurs at 0), or none.
   */
  function Strpos(haystack: string, needle: string): (r: Option<nat>)
    ensures r.Some? ==> r.value + |needle| <= |haystack|
                        && haystack[r.value..r.value + |needle|] == needle
    ensures r.Some? ==> forall j :: 0 <= j < r.value ==> !(needle <= haystack[j..])
    ensures r.None? ==> forall j :: 0 <= j <= |haystack| ==> !(needle <= haystack[j..])
    decreases |haystack|
  {
    if needle <= haystack then Some(0)
    else if haystack == [] then None
    else
      match Strpos(haystack[1..], needle)
      case None =>
        AbsentAfterFirst(haystack, needle, |haystack|);
        None
      case Some(i) =>
        assert haystack[i + 1..i + 1 + |needle|] == haystack[1..][i..i + |needle|];
        AbsentAfterFirst(haystack, needle, i);
        Some(i + 1)
  }

  /**
   * A needle that is not a prefix of the haystack, and does not start at any
   * of the first `n` positions of its tail, starts at none of its first `n + 1` positions.
   */
  lemma AbsentAfterFirst(haystack: string, needle: string, n: nat)
    requires haystack != [] && !(needle <= haystack) && n <= |haystack|
    requires forall j :: 0 <= j < n ==> !(needle <= haystack[1..][j..])
    ensures forall j :: 0 <= j <= n ==> !(needle <= haystack[j..])
  {
    forall j | 0 <= j <= n ensures !(needle <= haystack[j..]) {
      if j > 0 {
        assert haystack[j..] == haystack[1..][j - 1..];
      }
    }
  }

  /** The first occurrence is at position 0 exactly when the needle is a prefix. */
  lemma StrposZeroIsPrefix(haystack: string, needle: string)
    ensures Strpos(haystack, needle) == Some(0) <==> needle <= haystack
  {
    if Strpos(haystack, needle) == Some(0) {
      assert haystack[0..|needle|] == needle;
      assert haystack[..|needle|] == haystack[0..|needle|];
    }
  }
}
