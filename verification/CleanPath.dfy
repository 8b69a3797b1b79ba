/** Path normalisation for metric labels: a loop of whole-string replacements against a one-pass
    definition, a canonical form, and an exact count of its passes. */
module CleanPaths {

  predicate StartsDouble(s: string) {
    |s| >= 2 && s[0] == '/' && s[1] == '/'
  }

  /** The path contains "//". */
  predicate HasDouble(s: string) {
    s != [] && (StartsDouble(s) || HasDouble(s[1..]))
  }

  /** One `ReplaceAll(s, "//", "/")`: matches are taken from the left and do not overlap. */
  function ReplaceAll(s: string): string {
    if s == [] then []
    else if StartsDouble(s) then "/" + ReplaceAll(s[2..])
    else [s[0]] + ReplaceAll(s[1..])
  }

  // ---------- the one-pass definition ----------

  /** Every run of slashes becomes one slash. */
  function Collapse(s: string): string {
    if s == [] then []
    else if StartsDouble(s) then Collapse(s[1..])
    else [s[0]] + Collapse(s[1..])
  }

  function DropTrailing(s: string): string {
    if s != "/" && s != [] && s[|s| - 1] == '/' then s[..|s| - 1] else s
  }

  function Clean(s: string): string {
    DropTrailing(Collapse(s))
  }

  // ---------- slash runs ----------

  /** Length of the run of slashes at the front. */
  function LeadRun(s: string): nat {
    if s != [] && s[0] == '/' then 1 + LeadRun(s[1..]) else 0
  }

  /** Length of the longest run of slashes anywhere. */
  function LongestRun(s: string): nat {
    if s == [] then 0 else Max(LeadRun(s), LongestRun(s[1..]))
  }

  function Max(a: nat, b: nat): nat {
    if a < b then b else a
  }

  function Half(n: nat): nat {
    (n + 1) / 2
  }

  /** How often a run of `n` slashes has to be halved, rounding up, until one is left. */
  function Halvings(n: nat): nat {
    if n <= 1 then 0 else 1 + Halvings(Half(n))
  }

  function Pow2(k: nat): nat {
    if k == 0 then 1 else 2 * Pow2(k - 1)
  }

  /** `Halvings` is the logarithm to base two, rounded up. */
  lemma {:induction false} HalvingsIsLog(n: nat)
    requires n >= 1
    ensures n <= Pow2(Halvings(n))
    ensures n >= 2 ==> Pow2(Halvings(n) - 1) < n
  {
    if n > 1 {
      HalvingsIsLog(Half(n));
      if Half(n) == 1 { assert n == 2; }
    }
  }

  lemma {:induction false} LeadRunHalves(s: string)
    ensures LeadRun(ReplaceAll(s)) == Half(LeadRun(s))
  {
    if s != [] {
      if StartsDouble(s) {
        LeadRunHalves(s[2..]);
        assert LeadRun(s) == 1 + LeadRun(s[1..]) && s[1..][1..] == s[2..];
      } else if s[0] == '/' {
        assert LeadRun(s[1..]) == 0;
        LeadRunHalves(s[1..]);
      }
    }
  }

  /** One replacement halves every run at once. */
  lemma {:induction false} LongestRunHalves(s: string)
    ensures LongestRun(ReplaceAll(s)) == Half(LongestRun(s))
  {
    if s != [] {
      if StartsDouble(s) {
        LongestRunHalves(s[2..]);
        LeadRunHalves(s[2..]);
        assert s[1..][1..] == s[2..];
      } else {
        LongestRunHalves(s[1..]);
        LeadRunHalves(s[1..]);
      }
    }
  }

  lemma {:induction false} DoubleIsLongRun(s: string)
    ensures HasDouble(s) <==> LongestRun(s) >= 2
  {
    if s != [] {
      DoubleIsLongRun(s[1..]);
      assert LeadRun(s) >= 2 <==> StartsDouble(s);
    }
  }

  lemma {:induction false} ReplaceAllShortens(s: string)
    ensures |ReplaceAll(s)| <= |s|
    ensures HasDouble(s) ==> |ReplaceAll(s)| < |s|
  {
    if s != [] { ReplaceAllShortens(if StartsDouble(s) then s[2..] else s[1..]); }
  }

  // ---------- the loop against the one pass ----------

  lemma {:induction false} CollapseKeepsFront(s: string)
    ensures s != [] <==> Collapse(s) != []
    ensures s != [] ==> Collapse(s)[0] == s[0]
    ensures ReplaceAll(s) != [] <==> s != []
    ensures s != [] ==> ReplaceAll(s)[0] == s[0]
  {
    if s != [] && StartsDouble(s) { CollapseKeepsFront(s[1..]); }
  }

  /** A replacement does not change what is left after collapsing. */
  lemma {:induction false} CollapseOfReplace(s: string)
    ensures Collapse(ReplaceAll(s)) == Collapse(s)
  {
    if s != [] {
      if StartsDouble(s) {
        var rest := s[2..];
        CollapseOfReplace(rest);
        CollapseKeepsFront(rest);
        assert s[1..][1..] == rest;
        assert ("/" + ReplaceAll(rest))[1..] == ReplaceAll(rest);
      } else {
        CollapseOfReplace(s[1..]);
        CollapseKeepsFront(s[1..]);
        assert ([s[0]] + ReplaceAll(s[1..]))[1..] == ReplaceAll(s[1..]);
      }
    }
  }

  lemma {:induction false} CollapseOfClean(s: string)
    requires !HasDouble(s)
    ensures Collapse(s) == s
  {
    if s != [] { CollapseOfClean(s[1..]); }
  }

  /** The loop computes the one-pass result, and it takes as many passes as the longest run of
      slashes has to be halved. */
  method CleanPath(path: string) returns (r: string, ghost passes: nat)
    ensures r == Clean(path)
    ensures passes == Halvings(LongestRun(path))
  {
    r, passes := path, 0;
    while HasDouble(r)
      invariant Collapse(r) == Collapse(path)
      invariant passes + Halvings(LongestRun(r)) == Halvings(LongestRun(path))
      decreases |r|
    {
      CollapseOfReplace(r);
      LongestRunHalves(r);
      DoubleIsLongRun(r);
      ReplaceAllShortens(r);
      r := ReplaceAll(r);
      passes := passes + 1;
    }
    DoubleIsLongRun(r);
    CollapseOfClean(r);
    if r != "/" && |r| > 0 && r[|r| - 1] == '/' {
      r := r[..|r| - 1];
    }
  }

  // ---------- the canonical form ----------

  predicate Rooted(s: string) {
    s != [] && s[0] == '/'
  }

  predicate Trailing(s: string) {
    s != [] && s[|s| - 1] == '/'
  }

  /** The non-empty pieces between slashes. */
  function Segments(s: string): (segs: seq<string>)
    ensures s != [] && s[0] != '/' ==> segs != []
  {
    if s == [] then []
    else
      var rest := Segments(s[1..]);
      if s[0] == '/' then rest
      else if |s| == 1 || s[1] == '/' then [[s[0]]] + rest
      else [[s[0]] + rest[0]] + rest[1..]
  }

  function Join(segs: seq<string>): string
    decreases |segs|, 0
  {
    if segs == [] then "" else segs[0] + Behind(segs[1..])
  }

  /** Further segments, each with its slash in front. */
  function Behind(segs: seq<string>): string
    decreases |segs|, 1
  {
    if segs == [] then "" else "/" + Join(segs)
  }

  /** The path with these segments and no other slash than needed. */
  function Canonical(rooted: bool, segs: seq<string>): string {
    (if rooted then "/" else "") + Join(segs)
  }

  predicate Piece(w: string) {
    w != "" && '/' !in w
  }

  lemma {:induction false} SegmentsArePieces(s: string)
    ensures forall w | w in Segments(s) :: Piece(w)
  {
    if s != [] {
      SegmentsArePieces(s[1..]);
      var rest := Segments(s[1..]);
      if s[0] != '/' && |s| > 1 && s[1] != '/' {
        assert Piece(rest[0]);
        assert forall w | w in rest[1..] :: w in rest;
      }
    }
  }

  lemma Associative(a: string, b: string, c: string)
    ensures a + b + c == a + (b + c)
  {}

  lemma JoinPrepend(w: string, rest: seq<string>)
    ensures Join([w] + rest) == w + Behind(rest)
  {
    assert ([w] + rest)[1..] == rest;
  }

  lemma JoinGrow(c: char, w: string, rest: seq<string>)
    ensures Join([[c] + w] + rest) == [c] + Join([w] + rest)
  {
    JoinPrepend([c] + w, rest);
    JoinPrepend(w, rest);
    Associative([c], w, Behind(rest));
  }

  /** The slash that collapsing leaves at the end. */
  function EndSlash(s: string): string {
    if Trailing(s) && Segments(s) != [] then "/" else ""
  }

  /** Collapsing leaves the canonical form, up to one slash at the end. */
  lemma {:induction false} CollapseShape(s: string)
    ensures Collapse(s) == Canonical(Rooted(s), Segments(s)) + EndSlash(s)
  {
    if |s| > 1 {
      var tail := s[1..];
      var rest := Segments(tail);
      CollapseShape(tail);
      assert Trailing(tail) == Trailing(s);
      if s[0] == '/' {
        assert EndSlash(s) == EndSlash(tail);
      } else if s[1] == '/' {
        JoinPrepend([s[0]], rest);
        if rest == [] { NoSegments(tail); }
      } else {
        JoinGrow(s[0], rest[0], rest[1..]);
        assert [rest[0]] + rest[1..] == rest;
        assert EndSlash(s) == EndSlash(tail);
      }
    } else if |s| == 1 {
      assert s == [s[0]] && s[1..] == [];
      JoinPrepend([s[0]], []);
    }
  }

  lemma {:induction false} NoSegments(s: string)
    requires Segments(s) == [] && s != []
    ensures Trailing(s)
  {
    if |s| > 1 { NoSegments(s[1..]); }
  }

  lemma {:induction false} JoinEnds(segs: seq<string>)
    requires segs != [] && forall w | w in segs :: Piece(w)
    ensures Join(segs) != "" && Join(segs)[0] != '/' && !Trailing(Join(segs))
  {
    assert segs[0] in segs;
    if |segs| > 1 {
      assert forall w | w in segs[1..] :: w in segs;
      JoinEnds(segs[1..]);
    }
  }

  /** The label is the canonical path: root slash if there was one, then the non-empty segments. */
  lemma CleanIsCanonical(s: string)
    ensures Clean(s) == Canonical(Rooted(s), Segments(s))
  {
    CollapseShape(s);
    SegmentsArePieces(s);
    if Segments(s) != [] {
      JoinEnds(Segments(s));
    }
  }

  lemma {:induction false} SegmentsOfPiece(w: string, rest: string)
    requires Piece(w)
    ensures Segments(w) == [w]
    ensures Segments(w + "/" + rest) == [w] + Segments(rest)
  {
    var all := w + "/" + rest;
    assert all[1..] == w[1..] + "/" + rest;
    if |w| == 1 {
      assert all[1..][1..] == rest;
      assert w[1..] == [] && w == [w[0]];
    } else {
      SegmentsOfPiece(w[1..], rest);
      assert w == [w[0]] + w[1..];
    }
  }

  lemma SegmentsCons(c: char, s: string)
    ensures var rest := Segments(s);
            Segments([c] + s) == if c == '/' then rest
                                 else if s == "" || s[0] == '/' then [[c]] + rest
                                 else [[c] + rest[0]] + rest[1..]
  {
    assert ([c] + s)[1..] == s;
  }

  lemma FirstGrows(c: char, segs: seq<string>, more: seq<string>)
    requires segs != []
    ensures [[c] + (segs + more)[0]] + (segs + more)[1..] == [[c] + segs[0]] + segs[1..] + more
  {}

  /** A cut before a slash divides the segments. */
  lemma {:induction false} SegmentsConcat(a: string, b: string)
    requires b == "" || b[0] == '/'
    ensures Segments(a + b) == Segments(a) + Segments(b)
  {
    if a == "" {
      assert a + b == b;
    } else {
      SegmentsConcat(a[1..], b);
      SegmentsConcatCons(a[0], a[1..], b);
      assert a == [a[0]] + a[1..] && a + b == [a[0]] + (a[1..] + b);
    }
  }

  lemma SegmentsConcatCons(c: char, tail: string, b: string)
    requires b == "" || b[0] == '/'
    requires Segments(tail + b) == Segments(tail) + Segments(b)
    ensures Segments([c] + (tail + b)) == Segments([c] + tail) + Segments(b)
  {
    SegmentsCons(c, tail);
    SegmentsCons(c, tail + b);
    if tail == "" {
      assert tail + b == b;
    } else if c != '/' && tail[0] != '/' {
      FirstGrows(c, Segments(tail), Segments(b));
    }
  }

  lemma {:induction false} SegmentsOfJoin(segs: seq<string>)
    requires forall w | w in segs :: Piece(w)
    ensures Segments(Join(segs)) == segs
  {
    if segs != [] {
      assert segs[0] in segs && forall w | w in segs[1..] :: w in segs;
      SegmentsOfJoin(segs[1..]);
      SegmentsOfPiece(segs[0], Join(segs[1..]));
      assert segs == [segs[0]] + segs[1..];
      if segs[1..] == [] {
        assert Join(segs) == segs[0];
      } else {
        Associative(segs[0], "/", Join(segs[1..]));
      }
    }
  }

  /** Cleaning keeps the segments and whether the path starts at the root. */
  lemma CleanKeeps(s: string)
    ensures Segments(Clean(s)) == Segments(s) && Rooted(Clean(s)) == Rooted(s)
  {
    CleanIsCanonical(s);
    SegmentsArePieces(s);
    SegmentsOfJoin(Segments(s));
    if Segments(s) != [] { JoinEnds(Segments(s)); }
    if Rooted(s) {
      assert Clean(s)[1..] == Join(Segments(s));
    } else {
      assert Clean(s) == Join(Segments(s));
    }
  }

  /** Two routes share a metric label exactly when they have the same segments and agree on the
      leading slash. */
  lemma SameLabel(s: string, t: string)
    ensures Clean(s) == Clean(t) <==> Rooted(s) == Rooted(t) && Segments(s) == Segments(t)
  {
    CleanKeeps(s);
    CleanKeeps(t);
    CleanIsCanonical(s);
    CleanIsCanonical(t);
  }

  lemma {:induction false} DoubleAt(s: string, i: nat)
    requires i + 1 < |s| && s[i] == '/' && s[i + 1] == '/'
    ensures HasDouble(s)
  {
    if i > 0 { DoubleAt(s[1..], i - 1); }
  }

  lemma {:induction false} DoubleWhere(s: string) returns (i: nat)
    requires HasDouble(s)
    ensures i + 1 < |s| && s[i] == '/' && s[i + 1] == '/'
  {
    if StartsDouble(s) { i := 0; } else { i := DoubleWhere(s[1..]); i := i + 1; }
  }

  lemma {:induction false} CollapseHasNoDouble(s: string)
    ensures !HasDouble(Collapse(s))
  {
    if s != [] {
      CollapseHasNoDouble(s[1..]);
      CollapseKeepsFront(s[1..]);
      if !StartsDouble(s) { assert Collapse(s)[1..] == Collapse(s[1..]); }
    }
  }

  /** A label has no two slashes in a row, no slash at the end unless it is the root, and is its own
      label. */
  lemma CleanIsNormal(s: string)
    ensures !HasDouble(Clean(s))
    ensures Trailing(Clean(s)) ==> Clean(s) == "/"
    ensures Clean(Clean(s)) == Clean(s)
  {
    CollapseHasNoDouble(s);
    if HasDouble(Clean(s)) {
      var i := DoubleWhere(Clean(s));
      DoubleAt(Collapse(s), i);
    }
    CleanKeeps(s);
    CleanIsCanonical(s);
    CleanIsCanonical(Clean(s));
    SegmentsArePieces(s);
    if Segments(s) != [] { JoinEnds(Segments(s)); }
  }
}
