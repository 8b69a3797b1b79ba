/** Bracketed lists in header values: what the header loop and the subprotocol loop make of them. */
module HeaderLists {
  import opened GoStrings

  predicate IsBracket(c: char) {
    c == '[' || c == ']'
  }

  predicate Bracketed(v: string) {
    HasPrefix(v, "[") && HasSuffix(v, "]")
  }

  /** The pieces that are left after trimming, in order, without the empty ones. */
  function Kept(parts: seq<string>): seq<string> {
    if parts == [] then []
    else
      var t := TrimSpace(parts[0]);
      (if t != "" then [t] else []) + Kept(parts[1..])
  }

  function ParseList(v: string): seq<string> {
    Kept(Split(Trim(v, IsBracket), ','))
  }

  // ---------- what is parsed ----------

  /** Not empty, with nothing to trim, and free of the separator. */
  predicate Token(t: string) {
    t != "" && EndsKept(t, IsSpace) && ',' !in t
  }

  lemma {:induction false} KeptAreTokens(parts: seq<string>)
    requires forall p | p in parts :: ',' !in p
    ensures forall t | t in Kept(parts) :: Token(t)
  {
    if parts != [] {
      var i, j := TrimWindow(parts[0], IsSpace);
      assert parts[0] in parts;
      assert forall p | p in parts[1..] :: p in parts;
      KeptAreTokens(parts[1..]);
    }
  }

  /** Whatever the value, only tokens come out. */
  lemma ParsedAreTokens(v: string)
    ensures forall t | t in ParseList(v) :: Token(t)
  {
    SplitHasNoSeparator(Trim(v, IsBracket), ',');
    KeptAreTokens(Split(Trim(v, IsBracket), ','));
  }

  // ---------- printing and parsing back ----------

  function Join(ts: seq<string>): string {
    if ts == [] then ""
    else if |ts| == 1 then ts[0]
    else ts[0] + ", " + Join(ts[1..])
  }

  function PrintList(ts: seq<string>): string {
    "[" + Join(ts) + "]"
  }

  lemma {:induction false} TrimSpaceSkips(p: string)
    ensures TrimSpace(" " + p) == TrimSpace(p)
  {
    assert (" " + p)[1..] == p;
  }

  lemma KeptSkipsSpace(s: string)
    ensures Kept(Split(" " + s, ',')) == Kept(Split(s, ','))
  {
    var parts := Split(s, ',');
    assert (" " + s)[1..] == s;
    assert Split(" " + s, ',') == [" " + parts[0]] + parts[1..];
    TrimSpaceSkips(parts[0]);
    assert parts == [parts[0]] + parts[1..];
  }

  lemma KeptCons(t: string, rest: seq<string>)
    requires Token(t)
    ensures Kept([t] + rest) == [t] + Kept(rest)
  {
    TrimStable(t, IsSpace);
    assert ([t] + rest)[1..] == rest;
  }

  lemma {:induction false} SplitJoin(ts: seq<string>)
    requires forall t | t in ts :: Token(t)
    ensures Kept(Split(Join(ts), ',')) == ts
  {
    if ts == [] {
      assert Split("", ',') == [""] && Kept([""]) == [];
    } else {
      var t, rest := ts[0], ts[1..];
      assert t in ts && forall x | x in rest :: x in ts;
      if rest == [] {
        SplitFirst(t, ',', "");
        KeptCons(t, []);
        assert ts == [t];
      } else {
        var tail := " " + Join(rest);
        assert Join(ts) == t + [','] + tail;
        SplitFirst(t, ',', tail);
        KeptCons(t, Split(tail, ','));
        KeptSkipsSpace(Join(rest));
        SplitJoin(rest);
        assert ts == [t] + rest;
      }
    }
  }

  lemma {:induction false} JoinEnds(ts: seq<string>)
    requires ts != [] && forall t | t in ts :: t != ""
    ensures ts[0] != "" && ts[|ts| - 1] != ""
    ensures Join(ts) != "" && Join(ts)[0] == ts[0][0]
    ensures Join(ts)[|Join(ts)| - 1] == ts[|ts| - 1][|ts[|ts| - 1]| - 1]
  {
    assert ts[0] in ts && ts[|ts| - 1] in ts;
    if |ts| > 1 {
      assert forall t | t in ts[1..] :: t in ts;
      JoinEnds(ts[1..]);
    }
  }

  // ---------- counting brackets, to see when parsing loses one ----------

  function Brackets(ts: seq<string>): nat {
    if ts == [] then 0 else Count(ts[0], IsBracket) + Brackets(ts[1..])
  }

  lemma NoBracketInSpace(s: string)
    ensures Count(TrimSpace(s), IsBracket) == Count(s, IsBracket)
  {
    var i, j := TrimWindow(s, IsSpace);
    assert s == s[..i] + s[i..j] + s[j..];
    TrimCutsOnly(s[..i], s[i..j], s[j..]);
  }

  lemma TrimCutsOnly(front: string, mid: string, back: string)
    requires Count(front + mid + back, IsSpace) == |front| + |back| + Count(mid, IsSpace)
    ensures Count(front + mid + back, IsBracket) == Count(mid, IsBracket)
  {
    CountConcat(front + mid, back, IsSpace);
    CountConcat(front, mid, IsSpace);
    CountConcat(front + mid, back, IsBracket);
    CountConcat(front, mid, IsBracket);
    SpaceOrBracket(front);
    SpaceOrBracket(back);
  }

  lemma {:induction false} SpaceOrBracket(s: string)
    ensures Count(s, IsSpace) + Count(s, IsBracket) <= |s|
  {
    if s != "" { SpaceOrBracket(s[1..]); }
  }

  lemma {:induction false} KeptBrackets(parts: seq<string>)
    ensures Brackets(Kept(parts)) == Brackets(parts)
  {
    if parts != [] {
      KeptBrackets(parts[1..]);
      NoBracketInSpace(parts[0]);
      var t := TrimSpace(parts[0]);
      if t != "" {
        assert Kept(parts)[0] == t && Kept(parts)[1..] == Kept(parts[1..]);
      } else {
        assert Kept(parts) == Kept(parts[1..]);
      }
    }
  }

  lemma {:induction false} SplitBrackets(s: string)
    ensures Brackets(Split(s, ',')) == Count(s, IsBracket)
  {
    if s != "" {
      SplitBrackets(s[1..]);
      var rest := Split(s[1..], ',');
      if s[0] == ',' {
        assert ([""] + rest)[1..] == rest;
      } else {
        assert ([s[0]] + rest[0])[1..] == rest[0];
        assert ([[s[0]] + rest[0]] + rest[1..])[1..] == rest[1..];
      }
    }
  }

  lemma {:induction false} JoinBrackets(ts: seq<string>)
    ensures Brackets(ts) == Count(Join(ts), IsBracket)
  {
    if |ts| == 1 {
      assert ts[1..] == [];
    } else if ts != [] {
      JoinBrackets(ts[1..]);
      CountConcat(ts[0], ", ", IsBracket);
      CountConcat(ts[0] + ", ", Join(ts[1..]), IsBracket);
      assert ", "[1..] == " " && " "[1..] == "";
    }
  }

  /** The list begins and ends with something else than a bracket. */
  predicate OuterPlain(ts: seq<string>) {
    var n := |ts| - 1;
    ts == [] || (ts[0] != "" && ts[n] != "" && !IsBracket(ts[0][0]) && !IsBracket(ts[n][|ts[n]| - 1]))
  }

  /** Trimming the brackets off a printed list gives the joined list exactly when the list begins
      and ends without a bracket; otherwise it takes characters of the list with it. */
  lemma PrintedTrim(ts: seq<string>)
    requires forall t | t in ts :: Token(t)
    ensures OuterPlain(ts) ==> Trim(PrintList(ts), IsBracket) == Join(ts)
    ensures Count(Trim(PrintList(ts), IsBracket), IsBracket) == Count(Join(ts), IsBracket) ==> OuterPlain(ts)
  {
    var joined, v := Join(ts), PrintList(ts);
    var i, j := TrimWindow(v, IsBracket);
    CountConcat("[" + joined, "]", IsBracket);
    CountConcat("[", joined, IsBracket);
    assert Count("[", IsBracket) == 1 && Count("]", IsBracket) == 1;
    if ts != [] {
      JoinEnds(ts);
      assert v[1] == joined[0] && v[|joined|] == joined[|joined| - 1];
      if OuterPlain(ts) {
        PlainWindow(v, i, j);
      }
      if j - i == |joined| {
        assert i >= 1 && j <= |v| - 1;
      }
    } else {
      assert v == "[]";
    }
  }

  /** A value with brackets at its two ends only is trimmed by exactly those. */
  lemma PlainWindow(v: string, i: nat, j: nat)
    requires |v| >= 3 && IsBracket(v[0]) && IsBracket(v[|v| - 1]) && !IsBracket(v[1]) && !IsBracket(v[|v| - 2])
    requires i <= j <= |v| && Trim(v, IsBracket) == v[i..j]
    ensures Trim(v, IsBracket) == v[1..|v| - 1]
  {
    var rest := v[1..];
    assert TrimLeft(v, IsBracket) == TrimLeft(rest, IsBracket) == rest;
    assert rest[..|rest| - 1] == v[1..|v| - 1];
    assert TrimRight(rest, IsBracket) == TrimRight(v[1..|v| - 1], IsBracket) == v[1..|v| - 1];
  }

  /** Parsing inverts printing exactly for lists of tokens that begin and end without a bracket. */
  lemma RoundTrip(ts: seq<string>)
    ensures ParseList(PrintList(ts)) == ts
       <==> (forall t | t in ts :: Token(t)) && OuterPlain(ts)
  {
    ParsedAreTokens(PrintList(ts));
    if forall t | t in ts :: Token(t) {
      PrintedTrim(ts);
      SplitJoin(ts);
      JoinBrackets(ts);
      var inner := Trim(PrintList(ts), IsBracket);
      SplitBrackets(inner);
      KeptBrackets(Split(inner, ','));
    }
  }

  // ---------- parsing any bracketed value ----------

  /** The white space of Unicode. */
  predicate White(c: char) {
    var n := c as int;
    || 9 <= n <= 13 || n in {0x20, 0x85, 0xA0, 0x1680} || 0x2000 <= n <= 0x200A
    || n in {0x2028, 0x2029, 0x202F, 0x205F, 0x3000}
  }

  /** What stands between two commas: a token, or nothing, with white space around it. */
  datatype Piece = Piece(before: string, token: string, after: string) {
    function Text(): string { before + token + after }

    ghost predicate Valid() {
      && (forall c | c in before + after :: White(c)) && ',' !in token
      && (token != "" ==> !White(token[0]) && !White(token[|token| - 1]))
    }
  }

  function Body(pieces: seq<Piece>): string {
    if pieces == [] then ""
    else if |pieces| == 1 then pieces[0].Text()
    else pieces[0].Text() + "," + Body(pieces[1..])
  }

  function Tokens(pieces: seq<Piece>): seq<string> {
    if pieces == [] then []
    else (if pieces[0].token != "" then [pieces[0].token] else []) + Tokens(pieces[1..])
  }

  lemma PieceParses(p: Piece)
    requires p.Valid()
    ensures TrimSpace(p.Text()) == p.token && ',' !in p.Text()
  {
    assert forall c :: White(c) == IsSpace(c);
    assert forall c | c in p.before :: c in p.before + p.after;
    assert forall c | c in p.after :: c in p.before + p.after;
    TrimOf(p.before, p.token, p.after, IsSpace);
  }

  lemma KeptFirst(t: string, rest: seq<string>)
    ensures Kept([t] + rest) == (if TrimSpace(t) != "" then [TrimSpace(t)] else []) + Kept(rest)
  {
    assert ([t] + rest)[1..] == rest;
  }

  lemma {:induction false} PiecesKept(pieces: seq<Piece>)
    requires forall p | p in pieces :: p.Valid()
    ensures Kept(Split(Body(pieces), ',')) == Tokens(pieces)
  {
    if pieces == [] {
      assert Split("", ',') == [""] && Kept([""]) == [];
    } else {
      var text, rest := pieces[0].Text(), pieces[1..];
      assert pieces[0] in pieces && forall p | p in rest :: p in pieces;
      PieceParses(pieces[0]);
      if rest == [] {
        SplitFirst(text, ',', "");
        KeptFirst(text, []);
      } else {
        SplitFirst(text, ',', Body(rest));
        assert text + "," + Body(rest) == text + [','] + Body(rest);
        KeptFirst(text, Split(Body(rest), ','));
        PiecesKept(rest);
      }
    }
  }

  /** Parsing any bracketed value: the brackets at the two ends go, however many, and the tokens
      between the commas come out in order, without the white space around them and without the
      empty ones. */
  lemma ParsedPieces(opening: string, pieces: seq<Piece>, closing: string)
    requires forall c | c in opening + closing :: c == '[' || c == ']'
    requires forall p | p in pieces :: p.Valid()
    requires var body := Body(pieces);
             body != "" ==> body[0] != '[' && body[0] != ']' && body[|body| - 1] != '[' && body[|body| - 1] != ']'
    ensures ParseList(opening + Body(pieces) + closing) == Tokens(pieces)
  {
    assert forall c | c in opening :: c in opening + closing;
    assert forall c | c in closing :: c in opening + closing;
    TrimOf(opening, Body(pieces), closing, IsBracket);
    PiecesKept(pieces);
  }

  // ---------- the two loops ----------

  lemma {:induction false} KeptAppend(parts: seq<string>, p: string)
    ensures Kept(parts + [p]) == if TrimSpace(p) != "" then Kept(parts) + [TrimSpace(p)] else Kept(parts)
  {
    if parts != [] {
      assert (parts + [p])[1..] == parts[1..] + [p];
      KeptAppend(parts[1..], p);
    }
  }

  lemma KeptStep(parts: seq<string>, i: nat)
    requires i < |parts|
    ensures var t := TrimSpace(parts[i]);
            Kept(parts[..i + 1]) == if t != "" then Kept(parts[..i]) + [t] else Kept(parts[..i])
  {
    KeptAppend(parts[..i], parts[i]);
    assert parts[..i + 1] == parts[..i] + [parts[i]];
  }

  type Header = map<string, seq<string>>

  function Values(h: Header, key: string): seq<string> {
    if key in h then h[key] else []
  }

  /** `http.Header.Add`, for a key in canonical form. */
  function Add(h: Header, key: string, value: string): Header {
    h[key := Values(h, key) + [value]]
  }

  /** What a header value contributes to the dialled request. */
  function Contribution(v: string): seq<string> {
    if Bracketed(v) then ParseList(v) else [v]
  }

  /** The header with values added to one key; adding none does not create the key. */
  function AddAll(h: Header, key: string, values: seq<string>): Header {
    if values == [] then h else h[key := Values(h, key) + values]
  }

  lemma ContributionExact(v: string)
    ensures Contribution(v) == if v != "" && v[0] == '[' && v[|v| - 1] == ']' then ParseList(v) else [v]
  {
    if v != "" { assert v[|v| - 1..] == [v[|v| - 1]]; }
  }

  lemma AddOneMore(h: Header, key: string, values: seq<string>, value: string)
    ensures Add(AddAll(h, key, values), key, value) == AddAll(h, key, values + [value])
  {
    assert Values(h, key) + values + [value] == Values(h, key) + (values + [value]);
    assert Values(h, key) + [] == Values(h, key);
  }

  /** The body of the header loop for one header. */
  method AddHeader(header: Header, k: string, v: string) returns (h: Header)
    ensures h == AddAll(header, k, Contribution(v))
    ensures Values(h, k) == Values(header, k)
                          + if v != "" && v[0] == '[' && v[|v| - 1] == ']' then ParseList(v) else [v]
    ensures forall other | other != k :: Values(h, other) == Values(header, other)
  {
    ContributionExact(v);
    assert Values(header, k) + [] == Values(header, k);
    h := header;
    if Bracketed(v) {
      var parts := Split(Trim(v, IsBracket), ',');
      for i := 0 to |parts|
        invariant h == AddAll(header, k, Kept(parts[..i]))
      {
        KeptStep(parts, i);
        var val := TrimSpace(parts[i]);
        if val != "" {
          AddOneMore(header, k, Kept(parts[..i]), val);
          h := Add(h, k, val);
        }
      }
      assert parts[..|parts|] == parts;
    } else {
      h := Add(h, k, v);
    }
  }

  function ToLower(s: string): string {
    if s == "" then ""
    else [if 'A' <= s[0] <= 'Z' then (s[0] as int + 32) as char else s[0]] + ToLower(s[1..])
  }

  /** Headers that are not forwarded: empty ones and those of the WebSocket upgrade itself. */
  predicate Skipped(k: string, v: string) {
    var key := ToLower(k);
    v == "" || HasPrefix(key, "sec-websocket-") || key == "upgrade" || key == "connection"
  }

  // ---------- comparing names without regard to case ----------

  /** The same character, or the same letter in the other case. */
  predicate SameLetter(a: char, b: char) {
    || a == b
    || ('A' <= a <= 'Z' && b as int == a as int + 32)
    || ('A' <= b <= 'Z' && a as int == b as int + 32)
  }

  predicate EqualFold(s: string, t: string) {
    |s| == |t| && forall i | 0 <= i < |s| :: SameLetter(s[i], t[i])
  }

  predicate BeginsFold(s: string, prefix: string) {
    |prefix| <= |s| && EqualFold(s[..|prefix|], prefix)
  }

  lemma {:induction false} ToLowerAt(s: string)
    ensures |ToLower(s)| == |s|
    ensures forall i | 0 <= i < |s| ::
              ToLower(s)[i] == if 'A' <= s[i] <= 'Z' then (s[i] as int + 32) as char else s[i]
  {
    if s != "" { ToLowerAt(s[1..]); }
  }

  predicate Lower(t: string) {
    forall c | c in t :: !('A' <= c <= 'Z')
  }

  lemma FoldIsLower(s: string, t: string)
    requires Lower(t)
    ensures EqualFold(s, t) <==> ToLower(s) == t
    ensures BeginsFold(s, t) <==> HasPrefix(ToLower(s), t)
  {
    ToLowerAt(s);
    assert forall i | 0 <= i < |t| :: t[i] in t;
    if |t| <= |s| {
      assert forall i | 0 <= i < |t| :: SameLetter(s[i], t[i]) <==> ToLower(s)[i] == t[i];
      assert BeginsFold(s, t) <==> ToLower(s)[..|t|] == t;
    }
  }

  /** The header of this name and value is forwarded: it is not empty, and the name is, case aside,
      none of those of the WebSocket upgrade. */
  predicate Forwarded(k: string, v: string) {
    v != "" && !BeginsFold(k, "sec-websocket-") && !EqualFold(k, "upgrade") && !EqualFold(k, "connection")
  }

  lemma SkippedExactly(k: string, v: string)
    ensures Skipped(k, v) <==> !Forwarded(k, v)
  {
    FoldIsLower(k, "sec-websocket-");
    FoldIsLower(k, "upgrade");
    FoldIsLower(k, "connection");
  }

  /** What the loop leaves, without reference to the test that it skips by. */
  lemma Copied(headers: map<string, string>, header: Header)
    requires forall k | k in headers && !Skipped(k, headers[k]) :: Values(header, k) == Contribution(headers[k])
    requires forall k | k in header :: k in headers && !Skipped(k, headers[k]) && header[k] != []
    ensures forall k :: k in header <==>
              k in headers && Forwarded(k, headers[k]) && Contribution(headers[k]) != []
    ensures forall k | k in header ::
              var v := headers[k];
              v != "" && header[k] == if v[0] == '[' && v[|v| - 1] == ']' then ParseList(v) else [v]
  {
    forall k | k in headers ensures Skipped(k, headers[k]) <==> !Forwarded(k, headers[k]) {
      SkippedExactly(k, headers[k]);
    }
    forall k | k in header
      ensures var v := headers[k];
              v != "" && header[k] == if v[0] == '[' && v[|v| - 1] == ']' then ParseList(v) else [v]
    {
      ContributionExact(headers[k]);
    }
  }

  /** The header loop, over the headers in no particular order: a key comes out exactly if its header
      is forwarded and contributes something, with exactly what its own value contributes. */
  method CopyHeaders(headers: map<string, string>) returns (header: Header)
    ensures forall k :: k in header <==>
              && k in headers && headers[k] != "" && Contribution(headers[k]) != []
              && !BeginsFold(k, "sec-websocket-") && !EqualFold(k, "upgrade") && !EqualFold(k, "connection")
    ensures forall k | k in header ::
              var v := headers[k];
              header[k] == if v[0] == '[' && v[|v| - 1] == ']' then ParseList(v) else [v]
    ensures forall k | k in headers && !Skipped(k, headers[k]) :: Values(header, k) == Contribution(headers[k])
    ensures forall k | k in header :: k in headers && !Skipped(k, headers[k])
  {
    header := map[];
    var todo := headers.Keys;
    while todo != {}
      invariant todo <= headers.Keys
      invariant forall k | k in headers && k !in todo && !Skipped(k, headers[k]) ::
                  Values(header, k) == Contribution(headers[k])
      invariant forall k | k in header :: k in headers && k !in todo && !Skipped(k, headers[k]) && header[k] != []
      decreases todo
    {
      var k :| k in todo;
      if !Skipped(k, headers[k]) {
        var before := header;
        header := AddHeader(header, k, headers[k]);
        assert Values(header, k) == [] + Contribution(headers[k]);
        assert forall other | other != k :: Values(header, other) == Values(before, other);
      }
      todo := todo - {k};
    }
    Copied(headers, header);
  }

  /** The subprotocols of a connection that is not Socket.IO: the same list as the header loop
      makes, unless nothing is left, in which case the dialer's own stay. */
  method Subprotocols(proto: string, configured: seq<string>) returns (protocols: seq<string>)
    ensures protocols ==
      if proto == "" then configured
      else if proto[0] != '[' || proto[|proto| - 1] != ']' then [proto]
      else if ParseList(proto) == [] then configured
      else ParseList(proto)
  {
    ContributionExact(proto);
    protocols := configured;
    if proto != "" {
      if Bracketed(proto) {
        var parts := Split(Trim(proto, IsBracket), ',');
        var clean: seq<string> := [];
        for i := 0 to |parts|
          invariant clean == Kept(parts[..i])
        {
          KeptStep(parts, i);
          var p := TrimSpace(parts[i]);
          if p != "" {
            clean := clean + [p];
          }
        }
        assert parts[..|parts|] == parts;
        if |clean| > 0 {
          protocols := clean;
        }
      } else {
        protocols := [proto];
      }
    }
  }
}
