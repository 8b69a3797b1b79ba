/** The functions of Go's strings package that the gateway uses on paths and headers. */
module GoStrings {

  predicate HasPrefix(s: string, prefix: string) {
    prefix <= s
  }

  predicate HasSuffix(s: string, suffix: string) {
    |suffix| <= |s| && s[|s| - |suffix|..] == suffix
  }

  function TrimPrefix(s: string, prefix: string): string {
    if HasPrefix(s, prefix) then s[|prefix|..] else s
  }

  function TrimSuffix(s: string, suffix: string): string {
    if HasSuffix(s, suffix) then s[..|s| - |suffix|] else s
  }

  predicate Contains(s: string, sub: string) {
    exists i | 0 <= i <= |s| :: HasPrefix(s[i..], sub)
  }

  /** A query is put behind a path with a question mark, if there is one. */
  function WithQuery(path: string, query: string): string {
    if query != "" then path + "?" + query else path
  }

  /** A path that is not empty gets a leading slash. */
  function Slashed(path: string): string {
    if path != "" && !HasPrefix(path, "/") then "/" + path else path
  }

  /** Index of the first `c`, or the length if there is none. */
  function IndexOf(s: string, c: char): (i: nat)
    ensures i <= |s|
    ensures c !in s[..i]
    ensures i < |s| ==> s[i] == c
  {
    if s == "" || s[0] == c then 0 else
      assert forall k: nat | k < |s| :: s[..k + 1] == [s[0]] + s[1..][..k];
      1 + IndexOf(s[1..], c)
  }

  predicate IsSpace(c: char) {
    || '\t' <= c <= '\r' || c == ' ' || c == '\U{85}' || c == '\U{A0}' || c == '\U{1680}'
    || '\U{2000}' <= c <= '\U{200A}' || c == '\U{2028}' || c == '\U{2029}' || c == '\U{202F}'
    || c == '\U{205F}' || c == '\U{3000}'
  }

  function TrimLeft(s: string, cut: char -> bool): string {
    if s != "" && cut(s[0]) then TrimLeft(s[1..], cut) else s
  }

  function TrimRight(s: string, cut: char -> bool): string {
    if s != "" && cut(s[|s| - 1]) then TrimRight(s[..|s| - 1], cut) else s
  }

  function Trim(s: string, cut: char -> bool): string {
    TrimRight(TrimLeft(s, cut), cut)
  }

  function TrimSpace(s: string): string {
    Trim(s, IsSpace)
  }

  /** The pieces between separators, empty ones included. */
  function Split(s: string, sep: char): (parts: seq<string>)
    ensures parts != []
  {
    if s == "" then [""]
    else
      var rest := Split(s[1..], sep);
      if s[0] == sep then [""] + rest else [[s[0]] + rest[0]] + rest[1..]
  }

  function Count(s: string, cut: char -> bool): nat {
    if s == "" then 0 else (if cut(s[0]) then 1 else 0) + Count(s[1..], cut)
  }

  // ---------- containment ----------

  lemma ContainsStep(c: char, s: string, sub: string)
    ensures Contains([c] + s, sub) <==> HasPrefix([c] + s, sub) || Contains(s, sub)
  {
    assert forall i | 0 <= i <= |s| :: ([c] + s)[i + 1..] == s[i..];
    if Contains([c] + s, sub) {
      var i :| 0 <= i <= |[c] + s| && HasPrefix(([c] + s)[i..], sub);
      if i > 0 { assert s[i - 1..] == ([c] + s)[i..]; }
    }
    assert ([c] + s)[0..] == [c] + s;
  }

  /** What is looked for cannot start in a front that lacks its first character. */
  lemma {:induction false} ContainsBehind(front: string, s: string, sub: string)
    requires sub != "" && sub[0] !in front
    ensures Contains(front + s, sub) <==> Contains(s, sub)
  {
    if front == "" {
      assert front + s == s;
    } else {
      ContainsBehind(front[1..], s, sub);
      ContainsStep(front[0], front[1..] + s, sub);
      assert [front[0]] + (front[1..] + s) == front + s;
    }
  }

  lemma ContainsMore(front: string, s: string, back: string, sub: string)
    requires Contains(s, sub)
    ensures Contains(front + s + back, sub)
  {
    var i :| 0 <= i <= |s| && HasPrefix(s[i..], sub);
    assert (front + s + back)[|front| + i..] == s[i..] + back;
  }

  lemma PrefixStops(s: string, sub: string, n: nat)
    requires HasPrefix(s, sub) && n < |s| && s[n] !in sub
    ensures |sub| <= n
  {
    assert forall k | 0 <= k < |sub| :: s[k] == sub[k];
  }

  /** What holds no `c` is never found across one. */
  lemma ContainsAcross(a: string, c: char, b: string, sub: string)
    requires c !in sub
    ensures Contains(a + [c] + b, sub) <==> Contains(a, sub) || Contains(b, sub)
  {
    var s := a + [c] + b;
    if Contains(s, sub) {
      var i :| 0 <= i <= |s| && HasPrefix(s[i..], sub);
      if i > |a| {
        assert s[i..] == b[i - |a| - 1..];
      } else {
        PrefixStops(s[i..], sub, |a| - i);
        assert a[i..][..|sub|] == s[i..][..|sub|] == sub;
      }
    }
    if Contains(a, sub) {
      ContainsMore("", a, [c] + b, sub);
      assert "" + a + ([c] + b) == s;
    }
    if Contains(b, sub) {
      ContainsMore(a + [c], b, "", sub);
      assert a + [c] + b + "" == s;
    }
  }

  lemma ContainsInQuery(path: string, query: string, sub: string)
    requires '?' !in sub && sub != ""
    ensures Contains(WithQuery(path, query), sub) <==> Contains(path, sub) || Contains(query, sub)
  {
    ContainsAcross(path, '?', query, sub);
    assert path + ['?'] + query == path + "?" + query;
  }

  lemma ContainsTwice(query: string, sub: string)
    requires '?' !in sub
    ensures Contains(query + "?" + query, sub) <==> Contains(query, sub)
  {
    ContainsAcross(query, '?', query, sub);
    assert query + ['?'] + query == query + "?" + query;
  }

  // ---------- trimming ----------

  predicate EndsKept(s: string, cut: char -> bool) {
    s != "" ==> !cut(s[0]) && !cut(s[|s| - 1])
  }

  lemma {:induction false} CountConcat(a: string, b: string, cut: char -> bool)
    ensures Count(a + b, cut) == Count(a, cut) + Count(b, cut)
  {
    if a == "" {
      assert a + b == b;
    } else {
      assert (a + b)[1..] == a[1..] + b;
      CountConcat(a[1..], b, cut);
    }
  }

  lemma {:induction false} TrimLeftWindow(s: string, cut: char -> bool) returns (i: nat)
    ensures i <= |s| && TrimLeft(s, cut) == s[i..]
    ensures s[i..] != "" ==> !cut(s[i])
    ensures Count(s, cut) == i + Count(s[i..], cut)
  {
    if s != "" && cut(s[0]) {
      i := TrimLeftWindow(s[1..], cut);
      assert s[1..][i..] == s[i + 1..];
      i := i + 1;
    } else {
      i := 0;
      assert s[0..] == s;
    }
  }

  lemma {:induction false} TrimRightWindow(s: string, cut: char -> bool) returns (j: nat)
    ensures j <= |s| && TrimRight(s, cut) == s[..j]
    ensures j > 0 ==> !cut(s[j - 1])
    ensures Count(s, cut) == |s| - j + Count(s[..j], cut)
  {
    var n := |s| - 1;
    if s != "" && cut(s[n]) {
      j := TrimRightWindow(s[..n], cut);
      assert s[..n][..j] == s[..j];
      CountConcat(s[..n], [s[n]], cut);
      assert s[..n] + [s[n]] == s;
    } else {
      j := |s|;
      assert s[..j] == s;
    }
  }

  /** Trimming keeps a window whose ends it would not cut, and cuts only what it should. */
  lemma TrimWindow(s: string, cut: char -> bool) returns (i: nat, j: nat)
    ensures i <= j <= |s| && Trim(s, cut) == s[i..j] && EndsKept(s[i..j], cut)
    ensures Count(s, cut) == |s| - (j - i) + Count(s[i..j], cut)
  {
    i := TrimLeftWindow(s, cut);
    var k := TrimRightWindow(s[i..], cut);
    j := i + k;
    assert s[i..][..k] == s[i..j];
  }

  lemma TrimStable(s: string, cut: char -> bool)
    ensures Trim(s, cut) == s <==> EndsKept(s, cut)
  {
    var i, j := TrimWindow(s, cut);
  }

  ghost predicate All(s: string, cut: char -> bool) {
    forall c | c in s :: cut(c)
  }

  lemma {:induction false} TrimLeftOf(front: string, s: string, cut: char -> bool)
    requires All(front, cut) && (s != "" ==> !cut(s[0]))
    ensures TrimLeft(front + s, cut) == s
  {
    if front == "" {
      assert front + s == s;
    } else {
      assert front[0] in front && forall c | c in front[1..] :: c in front;
      assert (front + s)[1..] == front[1..] + s;
      TrimLeftOf(front[1..], s, cut);
    }
  }

  lemma {:induction false} TrimRightOf(s: string, back: string, cut: char -> bool)
    requires All(back, cut) && (s != "" ==> !cut(s[|s| - 1]))
    ensures TrimRight(s + back, cut) == s
  {
    if back == "" {
      assert s + back == s;
    } else {
      var n := |back| - 1;
      assert back[n] in back && forall c | c in back[..n] :: c in back;
      assert (s + back)[..|s| + n] == s + back[..n];
      TrimRightOf(s, back[..n], cut);
    }
  }

  /** What is cut off is everything at the two ends that should be, and nothing else. */
  lemma TrimOf(front: string, s: string, back: string, cut: char -> bool)
    requires All(front, cut) && All(back, cut) && EndsKept(s, cut)
    ensures Trim(front + s + back, cut) == s
  {
    if s == "" {
      assert front + s + back == front + back + "";
      assert forall c | c in front + back :: c in front || c in back;
      TrimLeftOf(front + back, "", cut);
    } else {
      assert front + s + back == front + (s + back);
      TrimLeftOf(front, s + back, cut);
      TrimRightOf(s, back, cut);
    }
  }

  // ---------- splitting ----------

  lemma {:induction false} SplitHasNoSeparator(s: string, sep: char)
    ensures forall p | p in Split(s, sep) :: sep !in p
  {
    if s != "" {
      SplitHasNoSeparator(s[1..], sep);
      var rest := Split(s[1..], sep);
      assert sep !in rest[0];
      assert forall p | p in rest[1..] :: p in rest;
    }
  }

  lemma {:induction false} SplitFirst(a: string, sep: char, rest: string)
    requires sep !in a
    ensures Split(a, sep) == [a]
    ensures Split(a + [sep] + rest, sep) == [a] + Split(rest, sep)
  {
    var all := a + [sep] + rest;
    if a == "" {
      assert all[1..] == rest;
    } else {
      SplitFirst(a[1..], sep, rest);
      assert all[1..] == a[1..] + [sep] + rest;
      assert a == [a[0]] + a[1..];
    }
  }
}
