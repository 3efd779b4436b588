/** Go signature parsing: bracket matching, parameter splitting and type extraction (analyzer/lsp.go). */
module GoSignature {
  import opened StringOrder

  datatype Parsed = Parsed(paramTypes: seq<string>, returnTypes: seq<string>)

  // ----- Blanks -----

  predicate IsBlank(c: char) {
    c == ' ' || '\t' <= c <= '\r' || c == '\U{0085}' || c == '\U{00A0}' || c == '\U{1680}'
    || '\U{2000}' <= c <= '\U{200A}' || c == '\U{2028}' || c == '\U{2029}' || c == '\U{202F}'
    || c == '\U{205F}' || c == '\U{3000}'
  }

  /** The blanks are the characters with the Unicode property White_Space. */
  lemma BlanksAre(c: char)
    ensures IsBlank(c) <==> c in {' ', '\t', '\n', '\U{000B}', '\U{000C}', '\r', '\U{0085}', '\U{00A0}', '\U{1680}',
                                  '\U{2000}', '\U{2001}', '\U{2002}', '\U{2003}', '\U{2004}', '\U{2005}', '\U{2006}',
                                  '\U{2007}', '\U{2008}', '\U{2009}', '\U{200A}', '\U{2028}', '\U{2029}', '\U{202F}',
                                  '\U{205F}', '\U{3000}'}
  {
    if '\t' <= c <= '\r' || '\U{2000}' <= c <= '\U{200A}' {
      assert c as int in {9, 10, 11, 12, 13} || c as int - 0x2000 in {0, 1, 2, 3, 4, 5, 6, 7, 8, 9, 10};
      assert c == c as int as char;
    }
  }

  predicate BlankFree(s: string) {
    forall i :: 0 <= i < |s| ==> !IsBlank(s[i])
  }

  function TrimLeft(s: string): string {
    if s != "" && IsBlank(s[0]) then TrimLeft(s[1..]) else s
  }

  function TrimRight(s: string): string {
    if s != "" && IsBlank(s[|s| - 1]) then TrimRight(s[..|s| - 1]) else s
  }

  function Trim(s: string): string {
    TrimRight(TrimLeft(s))
  }

  /** strings.Fields: the maximal blank-free pieces. */
  function Fields(s: string): seq<string> {
    if s == "" then []
    else
      var n := |s| - 1;
      var before := Fields(s[..n]);
      if IsBlank(s[n]) then before
      else if before == [] || n == 0 || IsBlank(s[n - 1]) then before + [[s[n]]]
      else before[..|before| - 1] + [before[|before| - 1] + [s[n]]]
  }

  lemma {:induction false} FieldsAreBlankFree(s: string)
    ensures forall f :: f in Fields(s) ==> f != "" && BlankFree(f)
  {
    if s != "" {
      var n := |s| - 1;
      var before := Fields(s[..n]);
      FieldsAreBlankFree(s[..n]);
      if !IsBlank(s[n]) && before != [] && n != 0 && !IsBlank(s[n - 1]) {
        var k := |before| - 1;
        var grown := before[k] + [s[n]];
        assert before[k] in before;
        assert grown != "" && BlankFree(grown);
        assert Fields(s) == before[..k] + [grown];
        forall f | f in before[..k] ensures f in before {}
      }
    }
  }

  lemma FieldsSnoc(s: string, c: char)
    requires !IsBlank(c)
    ensures var before := Fields(s);
      Fields(s + [c]) == if before == [] || s == "" || IsBlank(s[|s| - 1]) then before + [[c]]
                         else before[..|before| - 1] + [before[|before| - 1] + [c]]
  {
    assert (s + [c])[..|s|] == s;
  }

  lemma GrowField(fields: seq<string>, f: string, c: char)
    ensures var before := fields + [f]; before[..|before| - 1] + [before[|before| - 1] + [c]] == fields + [f + [c]]
  {
  }

  lemma FieldGrows(a: string, front: string, c: char)
    requires Fields(a + front) == Fields(a) + [front] && front != "" && BlankFree(front) && !IsBlank(c)
    ensures Fields(a + front + [c]) == Fields(a) + [front + [c]]
  {
    assert (a + front)[|a + front| - 1] == front[|front| - 1];
    FieldsSnoc(a + front, c);
    GrowField(Fields(a), front, c);
  }

  lemma Rejoined(a: string, t: string, front: string, c: char)
    requires t != "" && front == t[..|t| - 1] && c == t[|t| - 1]
    ensures front + [c] == t && a + front + [c] == a + t
  {
  }

  /** A blank-free end after a blank, or alone, is a field of its own. */
  lemma {:induction false} LastField(a: string, t: string)
    requires a == "" || IsBlank(a[|a| - 1])
    requires t != "" && BlankFree(t)
    ensures Fields(a + t) == Fields(a) + [t]
  {
    var n := |t| - 1;
    if n == 0 {
      FieldsSnoc(a, t[0]);
      assert t == [t[0]];
    } else {
      var front := t[..n];
      LastField(a, front);
      FieldGrows(a, front, t[n]);
      Rejoined(a, t, front, t[n]);
    }
  }

  // ----- Depths -----

  function Step(c: char): int {
    if c == '(' || c == '[' || c == '{' then 1 else if c == ')' || c == ']' || c == '}' then -1 else 0
  }

  /** Brackets of all kinds that are open at the end of s. */
  ghost function Depth(s: string): int {
    if s == "" then 0 else Depth(s[..|s| - 1]) + Step(s[|s| - 1])
  }

  /** Parentheses that are open at the end of s. */
  ghost function Parens(s: string): int {
    if s == "" then 0
    else Parens(s[..|s| - 1]) + if s[|s| - 1] == '(' then 1 else if s[|s| - 1] == ')' then -1 else 0
  }

  lemma {:induction false} DepthJoin(a: string, b: string)
    ensures Depth(a + b) == Depth(a) + Depth(b)
    ensures Parens(a + b) == Parens(a) + Parens(b)
  {
    if b == "" {
      assert a + b == a;
    } else {
      DepthJoin(a, b[..|b| - 1]);
      assert (a + b)[..|a + b| - 1] == a + b[..|b| - 1];
    }
  }

  /** Depth counts the brackets of all three kinds, Parens the round ones. */
  lemma {:induction false} DepthCounts(s: string)
    ensures var m := multiset(s);
      && Depth(s) + m[')'] + m[']'] + m['}'] == m['('] + m['['] + m['{']
      && Parens(s) + m[')'] == m['(']
  {
    if s != "" {
      DepthCounts(s[..|s| - 1]);
      assert s == s[..|s| - 1] + [s[|s| - 1]];
    }
  }

  // ----- Matching parentheses -----

  ghost predicate ClosesAt(s: string, pos: int, i: int)
    requires 0 <= pos <= i < |s|
  {
    s[i] == ')' && Parens(s[pos..i + 1]) == 0
  }

  /** The first position from i on where the parenthesis count since pos falls to zero, or -1. */
  ghost function Closing(s: string, pos: int, i: int): int
    requires 0 <= pos <= i <= |s|
    decreases |s| - i
  {
    if i == |s| then -1 else if ClosesAt(s, pos, i) then i else Closing(s, pos, i + 1)
  }

  method FindMatchingParen(s: string, pos: nat) returns (r: int)
    requires pos <= |s|
    ensures r == Closing(s, pos, pos)
    ensures r == -1 || pos <= r < |s|
  {
    var depth := 0;
    assert s[pos..pos] == "";
    for i := pos to |s|
      invariant depth == Parens(s[pos..i])
      invariant Closing(s, pos, pos) == Closing(s, pos, i)
    {
      assert s[pos..i + 1][..i - pos] == s[pos..i];
      if s[i] == '(' {
        depth := depth + 1;
      } else if s[i] == ')' {
        depth := depth - 1;
        if depth == 0 {
          return i;
        }
      }
    }
    r := -1;
  }

  lemma {:induction false} ClosingIs(s: string, pos: int, i: int, r: int)
    requires 0 <= pos <= i <= r < |s| && ClosesAt(s, pos, r)
    requires forall j :: i <= j < r ==> !ClosesAt(s, pos, j)
    ensures Closing(s, pos, i) == r
    decreases r - i
  {
    if i < r {
      ClosingIs(s, pos, i + 1, r);
    }
  }

  /** No prefix closes more parentheses than it opens, and all are closed. */
  ghost predicate Matched(s: string) {
    Parens(s) == 0 && forall i :: 0 <= i <= |s| ==> Parens(s[..i]) >= 0
  }

  lemma MatchedJoin(a: string, b: string)
    requires Matched(a) && Matched(b)
    ensures Matched(a + b)
  {
    DepthJoin(a, b);
    forall i | 0 <= i <= |a + b| ensures Parens((a + b)[..i]) >= 0 {
      if i <= |a| {
        assert (a + b)[..i] == a[..i];
      } else {
        assert (a + b)[..i] == a + b[..i - |a|];
        DepthJoin(a, b[..i - |a|]);
      }
    }
  }

  lemma ParensOfOpen(b: string)
    ensures Parens("(" + b) == 1 + Parens(b)
  {
    DepthJoin("(", b);
    assert "("[..0] == "";
  }

  lemma StillOpen(s: string, pos: nat, body: string, j: nat)
    requires pos + 1 + |body| <= |s| && s[pos..pos + 1 + |body|] == "(" + body && Matched(body)
    requires pos <= j <= pos + |body|
    ensures !ClosesAt(s, pos, j) && Parens(s[pos..j + 1]) >= 1
  {
    assert s[pos..j + 1] == s[pos..pos + 1 + |body|][..j + 1 - pos] == "(" + body[..j - pos];
    ParensOfOpen(body[..j - pos]);
  }

  /** The parenthesis opened before a matched body is closed right after it. */
  lemma ClosedAfter(pre: string, body: string, post: string)
    requires Matched(body)
    ensures Closing(pre + "(" + body + ")" + post, |pre|, |pre|) == |pre| + 1 + |body|
  {
    var s, pos := pre + "(" + body + ")" + post, |pre|;
    assert s[pos..pos + 1 + |body|] == "(" + body;
    forall j | pos <= j <= pos + |body| ensures !ClosesAt(s, pos, j) {
      StillOpen(s, pos, body, j);
    }
    var r := pos + |body| + 1;
    ParensOfOpen(body);
    assert s[pos..r + 1][..r - pos] == s[pos..r];
    assert ClosesAt(s, pos, r);
    ClosingIs(s, pos, pos, r);
  }

  // ----- Splitting -----

  /** The pieces between the commas outside all brackets. */
  ghost function Split(s: string): (pieces: seq<string>)
    ensures pieces != []
  {
    if s == "" then [""]
    else
      var n := |s| - 1;
      var before := Split(s[..n]);
      if s[n] == ',' && Depth(s[..n]) == 0 then before + [""]
      else before[..|before| - 1] + [before[|before| - 1] + [s[n]]]
  }

  /** The pieces with one more character on the last. */
  ghost function Grown(pieces: seq<string>, c: char): seq<string>
    requires pieces != []
  {
    pieces[..|pieces| - 1] + [pieces[|pieces| - 1] + [c]]
  }

  lemma SplitSnoc(s: string, c: char)
    ensures Split(s + [c]) == if c == ',' && Depth(s) == 0 then Split(s) + [""] else Grown(Split(s), c)
    ensures Depth(s + [c]) == Depth(s) + Step(c)
  {
    assert (s + [c])[..|s|] == s;
  }

  lemma GrownLast(pieces: seq<string>, p: string, c: char)
    ensures Grown(pieces + [p], c) == pieces + [p + [c]]
  {
  }

  lemma GrownAfter(rest: seq<string>, pieces: seq<string>, c: char)
    requires pieces != []
    ensures Grown(rest + pieces, c) == rest + Grown(pieces, c)
  {
  }

  lemma TakeOneMore(s: string, start: nat, i: nat)
    requires start <= i < |s|
    ensures s[..i + 1] == s[..i] + [s[i]] && s[start..i + 1] == s[start..i] + [s[i]] && s[i + 1..i + 1] == ""
  {
  }

  /** What the loop of splitParams has after i characters. */
  ghost predicate Splitting(s: string, i: nat, parts: seq<string>, start: nat, depth: int) {
    start <= i <= |s| && depth == Depth(s[..i]) && parts + [s[start..i]] == Split(s[..i])
  }

  lemma PieceGrows(s: string, i: nat, parts: seq<string>, start: nat, depth: int)
    requires i < |s| && Splitting(s, i, parts, start, depth)
    ensures if s[i] == ',' && depth == 0 then Splitting(s, i + 1, parts + [s[start..i]], i + 1, depth)
            else Splitting(s, i + 1, parts, start, depth + Step(s[i]))
  {
    TakeOneMore(s, start, i);
    SplitSnoc(s[..i], s[i]);
    GrownLast(parts, s[start..i], s[i]);
  }

  lemma SplittingStarts(s: string)
    ensures Splitting(s, 0, [], 0, 0)
  {
    assert s[..0] == "" && s[0..0] == "";
  }

  lemma SplittingEnds(s: string, parts: seq<string>, start: nat, depth: int)
    requires Splitting(s, |s|, parts, start, depth)
    ensures start <= |s| && parts + [s[start..]] == Split(s)
  {
    assert s[..|s|] == s && s[start..|s|] == s[start..];
  }

  method SplitParams(s: string) returns (parts: seq<string>)
    ensures parts == Split(s)
  {
    parts := [];
    var depth, start := 0, 0;
    SplittingStarts(s);
    for i := 0 to |s|
      invariant Splitting(s, i, parts, start, depth)
    {
      var c := s[i];
      PieceGrows(s, i, parts, start, depth);
      if c == '(' || c == '[' || c == '{' {
        depth := depth + 1;
      } else if c == ')' || c == ']' || c == '}' {
        depth := depth - 1;
      } else if c == ',' {
        if depth == 0 {
          parts := parts + [s[start..i]];
          start := i + 1;
        }
      }
    }
    SplittingEnds(s, parts, start, depth);
    parts := parts + [s[start..]];
  }

  lemma DepthAfterComma(a: string, b: string)
    requires Depth(a) == 0
    ensures Depth(a + "," + b) == Depth(b)
  {
    DepthJoin(a, ",");
    DepthJoin(a + ",", b);
    assert ","[..0] == "";
  }

  lemma Associative(rest: seq<string>, pieces: seq<string>)
    ensures rest + pieces + [""] == rest + (pieces + [""])
  {
  }

  lemma SplitStep(x: string, y: string, c: char, rest: seq<string>)
    requires Depth(x) == Depth(y) && Split(x) == rest + Split(y)
    ensures Split(x + [c]) == rest + Split(y + [c])
  {
    SplitSnoc(x, c);
    SplitSnoc(y, c);
    Associative(rest, Split(y));
    GrownAfter(rest, Split(y), c);
  }

  lemma CommaJoin(a: string, b: string, front: string, c: char)
    requires b != "" && front == b[..|b| - 1] && c == b[|b| - 1]
    ensures front + [c] == b && a + "," + front + [c] == a + "," + b
  {
  }

  /** A comma after balanced text separates: both sides are split on their own. */
  lemma {:induction false} SplitAtComma(a: string, b: string)
    requires Depth(a) == 0
    ensures Split(a + "," + b) == Split(a) + Split(b)
  {
    if b == "" {
      SplitSnoc(a, ',');
      assert a + "," + b == a + [','];
    } else {
      var front, c := b[..|b| - 1], b[|b| - 1];
      SplitAtComma(a, front);
      DepthAfterComma(a, front);
      SplitStep(a + "," + front, front, c, Split(a));
      CommaJoin(a, b, front, c);
    }
  }

  lemma JoinGrown(pieces: seq<string>, c: char)
    requires pieces != []
    ensures Join(Grown(pieces, c), ",") == Join(pieces, ",") + [c]
  {
    var k := |pieces| - 1;
    assert pieces == pieces[..k] + [pieces[k]];
    JoinGrow(pieces[..k], pieces[k], [c], ",");
  }

  lemma JoinNext(pieces: seq<string>)
    requires pieces != []
    ensures Join(pieces + [""], ",") == Join(pieces, ",") + [',']
  {
    JoinSnoc(pieces, "", ",");
    assert Join(pieces, ",") + "," + "" == Join(pieces, ",") + [','];
  }

  /** Joining the pieces of any string with commas restores it. */
  lemma {:induction false} JoinSplit(s: string)
    ensures Join(Split(s), ",") == s
  {
    if s != "" {
      var front, c := s[..|s| - 1], s[|s| - 1];
      JoinSplit(front);
      SplitSnoc(front, c);
      JoinNext(Split(front));
      JoinGrown(Split(front), c);
      Rejoined("", s, front, c);
    }
  }

  /** Every comma is inside brackets. */
  ghost predicate NoTopComma(s: string) {
    forall i :: 0 <= i < |s| && s[i] == ',' ==> Depth(s[..i]) != 0
  }

  lemma {:induction false} SplitOne(s: string)
    requires NoTopComma(s)
    ensures Split(s) == [s]
  {
    if s != "" {
      var n := |s| - 1;
      forall i | 0 <= i < n && s[..n][i] == ',' ensures Depth(s[..n][..i]) != 0 {
        assert s[..n][..i] == s[..i];
      }
      SplitOne(s[..n]);
      assert s == s[..n] + [s[n]];
    }
  }

  // ----- Extracting types -----

  function LastToken(p: string): seq<string> {
    var t := Trim(p);
    if t == "" || Fields(t) == [] then [] else [Fields(t)[|Fields(t)| - 1]]
  }

  ghost function TypesOf(pieces: seq<string>): seq<string> {
    if pieces == [] then [] else TypesOf(pieces[..|pieces| - 1]) + LastToken(pieces[|pieces| - 1])
  }

  ghost function Extract(s: string): seq<string> {
    if Trim(s) == "" then [] else TypesOf(Split(Trim(s)))
  }

  method ExtractTypesFromParamList(paramStr0: string) returns (types: seq<string>)
    ensures types == Extract(paramStr0)
  {
    var paramStr := Trim(paramStr0);
    types := [];
    if paramStr == "" {
      return;
    }
    var params := SplitParams(paramStr);
    for i := 0 to |params|
      invariant types == TypesOf(params[..i])
    {
      assert params[..i + 1][..i] == params[..i];
      var p := Trim(params[i]);
      if p != "" {
        var parts := Fields(p);
        if |parts| != 0 {
          types := types + [parts[|parts| - 1]];
        }
      }
    }
    assert params[..|params|] == params;
  }

  /** Whatever the input, an extracted type is not empty and has no blank in it. */
  lemma {:induction false} TypesAreBlankFree(pieces: seq<string>)
    ensures forall t :: t in TypesOf(pieces) ==> t != "" && BlankFree(t)
  {
    if pieces != [] {
      TypesAreBlankFree(pieces[..|pieces| - 1]);
      FieldsAreBlankFree(Trim(pieces[|pieces| - 1]));
    }
  }

  // ----- Whole signatures -----

  function IndexOf(s: string, c: char): int {
    if s == "" then -1 else if s[0] == c then 0
    else var r := IndexOf(s[1..], c); if r < 0 then -1 else r + 1
  }

  lemma {:induction false} FirstIndex(pre: string, c: char, post: string)
    requires c !in pre
    ensures IndexOf(pre + [c] + post, c) == |pre|
  {
    if pre != "" {
      FirstIndex(pre[1..], c, post);
      assert (pre + [c] + post)[1..] == pre[1..] + [c] + post;
    }
  }

  lemma {:induction false} ClosingRange(s: string, pos: int, i: int)
    requires 0 <= pos <= i <= |s|
    ensures Closing(s, pos, i) == -1 || i <= Closing(s, pos, i) < |s|
    decreases |s| - i
  {
    if i < |s| {
      ClosingRange(s, pos, i + 1);
    }
  }

  ghost function ReturnTypes(rest: string): seq<string> {
    if rest == "" then []
    else if rest[0] == '(' then
      var close := Closing(rest, 0, 0);
      if 0 < close < |rest| then Extract(rest[1..close]) else []
    else [Trim(rest)]
  }

  /** The result when the first opening parenthesis is at open and is closed at close, if at all. */
  ghost function ParseAt(sig: string, open: nat, close: int): Parsed {
    if open < close < |sig| then Parsed(Extract(sig[open + 1..close]), ReturnTypes(Trim(sig[close + 1..])))
    else Parsed([], [])
  }

  ghost function Parse(sig: string): Parsed {
    var open := IndexOf(sig, '(');
    if 0 <= open < |sig| then ParseAt(sig, open, Closing(sig, open, open)) else Parsed([], [])
  }

  lemma {:induction false} IndexOfFinds(s: string, c: char)
    requires IndexOf(s, c) >= 0
    ensures IndexOf(s, c) < |s| && s[IndexOf(s, c)] == c
  {
    if s != "" && s[0] != c {
      IndexOfFinds(s[1..], c);
    }
  }

  lemma {:induction false} NeverCloses(s: string, pos: int, i: int)
    requires 0 <= pos <= i <= |s| && forall j :: i <= j < |s| ==> !ClosesAt(s, pos, j)
    ensures Closing(s, pos, i) == -1
    decreases |s| - i
  {
    if i < |s| {
      NeverCloses(s, pos, i + 1);
    }
  }

  /** Without an opening parenthesis, and when the first is never closed, nothing is extracted. */
  lemma Malformed(pre: string, body: string)
    requires '(' !in pre && forall i :: 0 <= i <= |body| ==> Parens(body[..i]) >= 0
    ensures Parse(pre) == Parsed([], [])
    ensures Parse(pre + "(" + body) == Parsed([], [])
  {
    if IndexOf(pre, '(') >= 0 {
      IndexOfFinds(pre, '(');
    }
    var s := pre + "(" + body;
    FirstIndex(pre, '(', body);
    assert s == pre + ['('] + body;
    forall j | |pre| <= j < |s| ensures !ClosesAt(s, |pre|, j) {
      assert s[|pre|..j + 1] == "(" + body[..j - |pre|];
      ParensOfOpen(body[..j - |pre|]);
    }
    NeverCloses(s, |pre|, |pre|);
  }

  method ParseReturns(rest: string) returns (returnTypes: seq<string>)
    ensures returnTypes == ReturnTypes(rest)
  {
    returnTypes := [];
    if rest == "" {
      return;
    }
    if "(" <= rest {
      var closeReturn := FindMatchingParen(rest, 0);
      if closeReturn > 0 {
        returnTypes := ExtractTypesFromParamList(rest[1..closeReturn]);
      }
    } else {
      returnTypes := [Trim(rest)];
    }
  }

  method ParseGoSig(sig: string) returns (r: Parsed)
    ensures r == Parse(sig)
  {
    var openParen := IndexOf(sig, '(');
    if openParen < 0 {
      return Parsed([], []);
    }
    IndexOfFinds(sig, '(');
    var closeParen := FindMatchingParen(sig, openParen);
    if closeParen < 0 {
      return Parsed([], []);
    }
    ClosesLater(sig, openParen);
    r := ParseBetween(sig, openParen, closeParen);
  }

  method ParseBetween(sig: string, openParen: nat, closeParen: nat) returns (r: Parsed)
    requires openParen < closeParen < |sig|
    ensures r == ParseAt(sig, openParen, closeParen)
  {
    var paramTypes := ExtractTypesFromParamList(sig[openParen + 1..closeParen]);
    var returnTypes := ParseReturns(Trim(sig[closeParen + 1..]));
    r := Parsed(paramTypes, returnTypes);
  }

  /** An opening parenthesis is not closed by itself. */
  lemma ClosesLater(s: string, pos: nat)
    requires pos < |s| && s[pos] == '('
    ensures Closing(s, pos, pos) != pos
  {
    ClosingRange(s, pos, pos + 1);
  }
}
