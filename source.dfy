/**
 * `extract_source`: the name every report file is given. The path of the
 * input file is matched against `[/]([^/]+[/][^/]+)$`, whose group is the
 * last two path components (`regexp_extract` yields "" when nothing
 * matches), and the group is sliced with Python's `[5:-8]`.
 */
module Source {
  import opened Wrappers

  /** Index of the last '/' in `s`. */
  function LastSlash(s: string): (r: Option<nat>)
    ensures r.Some? ==> r.value < |s| && s[r.value] == '/' && forall i :: r.value < i < |s| ==> s[i] != '/'
    ensures r.None? ==> forall i :: 0 <= i < |s| ==> s[i] != '/'
    decreases |s|
  {
    if s == [] then None
    else if s[|s| - 1] == '/' then Some(|s| - 1)
    else LastSlash(s[..|s| - 1])
  }

  /**
   * The regular expression matches with its leading '/' at `k`: exactly one
   * more '/' follows, with at least one character on each side of it and no
   * other '/' up to the end.
   */
  ghost predicate MatchesAt(p: string, k: int) {
    && 0 <= k < |p| && p[k] == '/'
    && exists j :: k + 1 < j < |p| - 1 && p[j] == '/'
         && forall i :: k < i < |p| && i != j ==> p[i] != '/'
  }

  /**
   * Group 1 of the match, when there is one: a suffix of the path, right
   * after a '/', holding exactly one '/' with characters on both sides.
   */
  function SourceGroup(p: string): (g: Option<string>)
    ensures g.Some? ==> |g.value| < |p| && g.value == p[|p| - |g.value|..] && p[|p| - |g.value| - 1] == '/'
    ensures g.Some? ==>
              exists j :: 0 < j < |g.value| - 1 && g.value[j] == '/'
                && forall i :: 0 <= i < |g.value| && i != j ==> g.value[i] != '/'
  {
    match LastSlash(p)
    case None => None
    case Some(j) =>
      if j == |p| - 1 then None
      else
        match LastSlash(p[..j])
        case None => None
        case Some(k) =>
          if k == j - 1 then None
          else
            var g := p[k + 1..];
            assert g[j - k - 1] == '/';
            assert forall i :: 0 <= i < |g| && i != j - k - 1 ==> g[i] != '/' by {
              forall i | 0 <= i < |g| && i != j - k - 1 ensures g[i] != '/' {
                if k + 1 + i < j {
                  assert g[i] == p[..j][k + 1 + i];
                }
              }
            }
            Some(g)
  }

  /** `SourceGroup` finds the match exactly when the expression has one there. */
  lemma SourceGroupMatches(p: string)
    ensures forall k :: MatchesAt(p, k) <==> 0 <= k < |p| && SourceGroup(p) == Some(p[k + 1..])
  {
    forall k ensures MatchesAt(p, k) <==> 0 <= k < |p| && SourceGroup(p) == Some(p[k + 1..]) {
      if MatchesAt(p, k) {
        var j :| k + 1 < j < |p| - 1 && p[j] == '/' && forall i :: k < i < |p| && i != j ==> p[i] != '/';
        var lj := LastSlash(p);
        assert lj == Some(j);
        var lk := LastSlash(p[..j]);
        assert p[..j][k] == '/';
        assert lk == Some(k);
      }
      if 0 <= k < |p| && SourceGroup(p) == Some(p[k + 1..]) {
        var j := LastSlash(p).value;
        var k' := LastSlash(p[..j]).value;
        assert |p[k' + 1..]| == |p[k + 1..]|;
        assert k == k';
        assert p[k] == '/';
        assert forall i :: k < i < |p| && i != j ==> p[i] != '/' by {
          forall i | k < i < |p| && i != j ensures p[i] != '/' {
            if i < j {
              assert p[..j][i] == p[i];
            }
          }
        }
      }
    }
  }

  /** No match at all when `SourceGroup` finds none. */
  lemma NoGroupNoMatch(p: string)
    requires SourceGroup(p).None?
    ensures forall k :: !MatchesAt(p, k)
  {
    SourceGroupMatches(p);
  }

  /** `regexp_extract(..., 1)`: the group, or "" without a match. */
  function RegexpExtract(p: string): (r: string)
    ensures r == "" <==> forall k :: !MatchesAt(p, k)
    ensures r != "" ==> exists k :: MatchesAt(p, k) && r == p[k + 1..]
  {
    SourceGroupMatches(p);
    match SourceGroup(p)
    case None => ""
    case Some(g) =>
      var k := |p| - |g| - 1;
      assert g == p[k + 1..];
      assert MatchesAt(p, k);
      g
  }

  /** A Python slice bound: negative counts from the end, then clamped to the string. */
  function SliceBound(i: int, n: nat): (b: nat)
    ensures b <= n
    ensures 0 <= i <= n ==> b == i
    ensures -(n as int) <= i < 0 ==> b as int == n as int + i
    ensures i > n ==> b == n
    ensures i < -(n as int) ==> b == 0
  {
    var j := if i < 0 then i + n else i;
    if j < 0 then 0 else if j > n then n else j
  }

  /** Python's `s[a:b]`. */
  function PySlice(s: string, a: int, b: int): (r: string)
    ensures var lo, hi := SliceBound(a, |s|), SliceBound(b, |s|);
      && |r| == (if lo < hi then hi - lo else 0)
      && forall i :: 0 <= i < |r| ==> r[i] == s[lo + i]
  {
    var lo, hi := SliceBound(a, |s|), SliceBound(b, |s|);
    if lo < hi then s[lo..hi] else ""
  }

  /** `csv_name[5:-8]` of the extracted group. */
  function ExtractSource(p: string): (r: string)
    ensures var g := RegexpExtract(p);
      && |r| == (if |g| > 13 then |g| - 13 else 0)
      && forall i :: 0 <= i < |r| ==> r[i] == g[5 + i]
  {
    PySlice(RegexpExtract(p), 5, -8)
  }

  /**
   * For a staged file `<dir>/data/<name>.zip.csv` the source is `<name>`:
   * `[5:]` drops "data/" and `[:-8]` drops ".zip.csv".
   */
  lemma ExtractSourceOfDataFile(dir: string, name: string)
    requires forall i :: 0 <= i < |name| ==> name[i] != '/'
    ensures ExtractSource(dir + "/data/" + name + ".zip.csv") == name
  {
    var g := "data/" + name + ".zip.csv";
    DataFileGroup(dir, name);
    assert PySlice(g, 5, -8) == g[5..|g| - 8];
    assert g[5..|g| - 8] == name;
  }

  /** The group of `<dir>/data/<name>.zip.csv` is `data/<name>.zip.csv`. */
  lemma DataFileGroup(dir: string, name: string)
    requires forall i :: 0 <= i < |name| ==> name[i] != '/'
    ensures RegexpExtract(dir + "/data/" + name + ".zip.csv") == "data/" + name + ".zip.csv"
  {
    var q, x := "/data/", ".zip.csv";
    var p := dir + q + name + x;
    var k := |dir|;
    var j := |dir| + 5;
    assert |p| == k + 6 + |name| + 8;
    assert p[k] == q[0] == '/' && p[j] == q[5] == '/';
    assert forall i :: k < i < |p| && i != j ==> p[i] != '/' by {
      forall i | k < i < |p| && i != j ensures p[i] != '/' {
        if i < k + 6 {
          assert p[i] == q[i - k];
        } else if i < k + 6 + |name| {
          assert p[i] == name[i - k - 6];
        } else {
          assert p[i] == x[i - k - 6 - |name|];
        }
      }
    }
    assert MatchesAt(p, k);
    SourceGroupMatches(p);
    assert p[k + 1..] == q[1..] + name + x;
  }

  /** A path with no two components yields the empty source. */
  lemma NoMatchEmptySource(p: string)
    requires forall k :: !MatchesAt(p, k)
    ensures ExtractSource(p) == ""
  {
    if SourceGroup(p).Some? {
      GroupHasMatch(p);
      assert false;
    }
  }

  lemma GroupHasMatch(p: string)
    requires SourceGroup(p).Some?
    ensures exists k :: MatchesAt(p, k)
  {
    var j := LastSlash(p).value;
    var k := LastSlash(p[..j]).value;
    SourceGroupMatches(p);
    assert SourceGroup(p) == Some(p[k + 1..]);
    assert MatchesAt(p, k);
  }
}
