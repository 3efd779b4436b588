/** Printed Go signatures, and what parsing gives back of them (analyzer/lsp.go). */
module SignaturePrinting {
  import opened GoSignature

  // ----- Printing -----

  /** One entry of a parameter list: a type, with a name in front or without. */
  datatype Entry = Named(name: string, typ: string) | Unnamed(typ: string)

  /** A name, without brackets, commas and blanks. */
  ghost predicate IsName(name: string) {
    && name != "" && BlankFree(name)
    && forall i :: 0 <= i < |name| ==> Step(name[i]) == 0 && name[i] != ','
  }

  /** The brackets of a type nest: none is closed that is not open, all are closed at the end, commas stand inside. */
  ghost predicate Nested(t: string) {
    && t != "" && Matched(t) && Depth(t) == 0 && NoTopComma(t)
  }

  ghost predicate WellFormed(e: Entry) {
    Nested(e.typ) && (e.Named? ==> IsName(e.name))
  }

  ghost predicate AllWellFormed(es: seq<Entry>) {
    forall i :: 0 <= i < |es| ==> WellFormed(es[i])
  }

  function Print(e: Entry): string {
    match e
    case Named(n, t) => n + " " + t
    case Unnamed(t) => t
  }

  function PrintList(es: seq<Entry>): string {
    if es == [] then ""
    else if |es| == 1 then Print(es[0])
    else PrintList(es[..|es| - 1]) + "," + " " + Print(es[|es| - 1])
  }

  ghost function Types(es: seq<Entry>): seq<string> {
    seq(|es|, i requires 0 <= i < |es| => es[i].typ)
  }

  function PrintSig(name: string, params: seq<Entry>, results: seq<Entry>): string {
    "func " + name + "(" + PrintList(params) + ")" + " (" + PrintList(results) + ")"
  }

  // ----- Printed text is nested -----

  lemma {:induction false} FlatText(s: string)
    requires forall i :: 0 <= i < |s| ==> Step(s[i]) == 0 && s[i] != ','
    ensures Depth(s) == 0 && Matched(s) && NoTopComma(s)
  {
    if s != "" {
      var n := |s| - 1;
      FlatText(s[..n]);
      forall i | 0 <= i <= |s| ensures Parens(s[..i]) >= 0 {
        if i <= n {
          assert s[..i] == s[..n][..i];
        } else {
          assert s[..i] == s;
        }
      }
    }
  }

  lemma TopCommaJoin(a: string, b: string)
    requires Depth(a) == 0 && NoTopComma(a) && NoTopComma(b)
    ensures NoTopComma(a + b)
  {
    forall i | 0 <= i < |a + b| && (a + b)[i] == ',' ensures Depth((a + b)[..i]) != 0 {
      if i < |a| {
        assert (a + b)[..i] == a[..i];
      } else {
        assert (a + b)[..i] == a + b[..i - |a|];
        DepthJoin(a, b[..i - |a|]);
      }
    }
  }

  ghost predicate Piece(s: string) {
    Depth(s) == 0 && Matched(s) && NoTopComma(s)
  }

  lemma PieceJoin(a: string, b: string)
    requires Piece(a) && Piece(b)
    ensures Piece(a + b)
  {
    DepthJoin(a, b);
    MatchedJoin(a, b);
    TopCommaJoin(a, b);
  }

  lemma PrintedPiece(e: Entry)
    requires WellFormed(e)
    ensures Piece(Print(e)) && Piece(" " + Print(e))
  {
    FlatText(" ");
    if e.Named? {
      FlatText(e.name);
      PieceJoin(e.name, " ");
      PieceJoin(e.name + " ", e.typ);
    }
    PieceJoin(" ", Print(e));
  }

  /** The pieces a printed list is split into again. */
  ghost function Pieces(es: seq<Entry>): seq<string> {
    if es == [] then []
    else if |es| == 1 then [Print(es[0])]
    else Pieces(es[..|es| - 1]) + [" " + Print(es[|es| - 1])]
  }

  lemma CommaMatched()
    ensures Matched(",") && Depth(",") == 0
  {
    assert ","[..0] == "" && ","[..1] == ",";
  }

  lemma {:induction false} SplitPrinted(es: seq<Entry>)
    requires AllWellFormed(es)
    ensures Depth(PrintList(es)) == 0 && Matched(PrintList(es))
    ensures es != [] ==> Split(PrintList(es)) == Pieces(es)
  {
    if es != [] {
      var n := |es| - 1;
      PrintedPiece(es[n]);
      if n == 0 {
        SplitOne(Print(es[0]));
      } else {
        var a, b := PrintList(es[..n]), " " + Print(es[n]);
        SplitPrinted(es[..n]);
        SplitOne(b);
        SplitAtComma(a, b);
        CommaMatched();
        DepthJoin(a, ",");
        MatchedJoin(a, ",");
        DepthJoin(a + ",", b);
        MatchedJoin(a + ",", b);
        assert PrintList(es) == a + "," + b;
      }
    }
  }

  // ----- Blanks at the ends do not matter -----

  lemma {:induction false} FieldsAfterBlank(b: char, s: string)
    requires IsBlank(b)
    ensures Fields([b] + s) == Fields(s)
  {
    var t := [b] + s;
    if s == "" {
      assert t[..0] == "" && Fields(t[..0]) == [];
    } else {
      var n := |s| - 1;
      FieldsAfterBlank(b, s[..n]);
      assert t[..|t| - 1] == [b] + s[..n] && t[|t| - 1] == s[n];
      if n > 0 {
        assert t[|t| - 2] == s[n - 1];
      }
    }
  }

  lemma {:induction false} FieldsTrimRight(s: string)
    ensures Fields(TrimRight(s)) == Fields(s)
  {
    if s != "" && IsBlank(s[|s| - 1]) {
      FieldsTrimRight(s[..|s| - 1]);
    }
  }

  lemma {:induction false} FieldsTrim(s: string)
    ensures Fields(Trim(s)) == Fields(s)
  {
    if s != "" && IsBlank(s[0]) {
      FieldsTrim(s[1..]);
      FieldsAfterBlank(s[0], s[1..]);
      assert s == [s[0]] + s[1..];
    } else {
      FieldsTrimRight(s);
    }
  }

  /** The piece taken from a text is its last field, if any. */
  lemma TokenOf(p: string)
    ensures LastToken(p) == if Fields(p) == [] then [] else [Fields(p)[|Fields(p)| - 1]]
  {
    FieldsTrim(p);
  }

  lemma TokenAfterBlank(b: char, p: string)
    requires IsBlank(b)
    ensures LastToken([b] + p) == LastToken(p)
  {
    TokenOf(p);
    TokenOf([b] + p);
    FieldsAfterBlank(b, p);
  }

  lemma TokenBeforeBlank(p: string, b: char)
    requires IsBlank(b)
    ensures LastToken(p + [b]) == LastToken(p)
  {
    TokenOf(p);
    TokenOf(p + [b]);
    assert (p + [b])[..|p|] == p;
  }

  /** The pieces with one more character in front of the first. */
  ghost function Led(b: char, pieces: seq<string>): seq<string>
    requires pieces != []
  {
    pieces[0 := [b] + pieces[0]]
  }

  lemma LedGrown(b: char, pieces: seq<string>, c: char)
    requires pieces != []
    ensures Led(b, Grown(pieces, c)) == Grown(Led(b, pieces), c)
  {
    if |pieces| == 1 {
      assert [b] + (pieces[0] + [c]) == ([b] + pieces[0]) + [c];
    }
  }

  lemma LedSplit(b: char, front: string, c: char)
    requires IsBlank(b) && Depth([b] + front) == Depth(front) && Split([b] + front) == Led(b, Split(front))
    ensures Split([b] + front + [c]) == Led(b, Split(front + [c]))
  {
    SplitSnoc(front, c);
    SplitSnoc([b] + front, c);
    LedGrown(b, Split(front), c);
  }

  lemma BlankDepth(b: char, s: string)
    requires IsBlank(b)
    ensures Depth([b] + s) == Depth(s)
  {
    assert Depth([b]) == Depth([b][..0]) + Step(b);
    DepthJoin([b], s);
  }

  lemma {:induction false} SplitAfterBlank(b: char, s: string)
    requires IsBlank(b)
    ensures Split([b] + s) == Led(b, Split(s))
  {
    if s == "" {
      SplitOneBlank(b);
      assert [b] + s == [b];
    } else {
      var front, c := s[..|s| - 1], s[|s| - 1];
      SplitAfterBlank(b, front);
      BlankDepth(b, front);
      LedSplit(b, front, c);
      Rejoined([b], s, front, c);
    }
  }

  lemma SplitOneBlank(b: char)
    requires IsBlank(b)
    ensures Split([b]) == [[b]] && Led(b, Split("")) == [[b]]
  {
    SplitSnoc("", b);
    assert "" + [b] == [b];
    assert [b] + "" == [b];
  }

  lemma {:induction false} SameTokens(x: seq<string>, y: seq<string>)
    requires |x| == |y| && forall i :: 0 <= i < |x| ==> LastToken(x[i]) == LastToken(y[i])
    ensures TypesOf(x) == TypesOf(y)
  {
    if x != [] {
      SameTokens(x[..|x| - 1], y[..|y| - 1]);
    }
  }

  lemma GrownTokens(pieces: seq<string>, b: char)
    requires pieces != [] && IsBlank(b)
    ensures TypesOf(Grown(pieces, b)) == TypesOf(pieces)
  {
    TokenBeforeBlank(pieces[|pieces| - 1], b);
  }

  lemma BlankGrows(s: string, b: char)
    requires IsBlank(b)
    ensures Split(s + [b]) == Grown(Split(s), b)
  {
    SplitSnoc(s, b);
  }

  lemma TypesBeforeBlank(s: string, b: char)
    requires IsBlank(b)
    ensures TypesOf(Split(s + [b])) == TypesOf(Split(s))
  {
    BlankGrows(s, b);
    GrownTokens(Split(s), b);
  }

  lemma TypesAfterBlank(b: char, s: string)
    requires IsBlank(b)
    ensures TypesOf(Split([b] + s)) == TypesOf(Split(s))
  {
    SplitAfterBlank(b, s);
    TokenAfterBlank(b, Split(s)[0]);
    SameTokens(Led(b, Split(s)), Split(s));
  }

  lemma TrimRightStep(s: string)
    requires s != "" && IsBlank(s[|s| - 1])
    ensures TrimRight(s) == TrimRight(s[..|s| - 1]) && s == s[..|s| - 1] + [s[|s| - 1]]
  {
  }

  lemma {:induction false} TypesTrimRight(s: string)
    ensures TypesOf(Split(TrimRight(s))) == TypesOf(Split(s))
  {
    if s == "" || !IsBlank(s[|s| - 1]) {
      assert TrimRight(s) == s;
    } else {
      TrimRightStep(s);
      TypesTrimRight(s[..|s| - 1]);
      TypesBeforeBlank(s[..|s| - 1], s[|s| - 1]);
    }
  }

  lemma {:induction false} TypesTrim(s: string)
    ensures TypesOf(Split(Trim(s))) == TypesOf(Split(s))
  {
    if s != "" && IsBlank(s[0]) {
      TypesTrim(s[1..]);
      TypesAfterBlank(s[0], s[1..]);
      assert s == [s[0]] + s[1..];
    } else {
      TypesTrimRight(s);
    }
  }

  /** Trimming the list first makes no difference: its types are the last fields of its pieces. */
  lemma ExtractIs(s: string)
    ensures Extract(s) == TypesOf(Split(s))
  {
    TypesTrim(s);
    if Trim(s) == "" {
      assert LastToken("") == [] && Split("")[..0] == [];
    }
  }

  // ----- What comes back of a printed list -----

  /** The last field of every printed entry. */
  ghost function LastFields(es: seq<Entry>): seq<string> {
    if es == [] then [] else LastFields(es[..|es| - 1]) + LastToken(Print(es[|es| - 1]))
  }

  lemma {:induction false} TypesOfPieces(es: seq<Entry>)
    ensures TypesOf(Pieces(es)) == LastFields(es)
  {
    if es != [] {
      var n := |es| - 1;
      var piece := if n == 0 then Print(es[n]) else " " + Print(es[n]);
      TypesOfPieces(es[..n]);
      TokenAfterBlank(' ', Print(es[n]));
      assert Pieces(es) == Pieces(es[..n]) + [piece];
    }
  }

  /** Every printed list comes back as the last fields of its entries. */
  lemma ListComesBack(es: seq<Entry>)
    requires AllWellFormed(es)
    ensures Extract(PrintList(es)) == LastFields(es)
  {
    ExtractIs(PrintList(es));
    if es != [] {
      SplitPrinted(es);
      TypesOfPieces(es);
    } else {
      assert LastToken("") == [] && Split("")[..0] == [];
    }
  }

  /** Of a type with a blank only what follows its last blank comes back; without one, all of it. */
  lemma EntryComesBack(e: Entry, u: string, t: string)
    requires e.typ == u + t && (u == "" || IsBlank(u[|u| - 1])) && t != "" && BlankFree(t)
    ensures LastToken(Print(e)) == [t]
  {
    var front := if e.Named? then e.name + " " + u else u;
    assert Print(e) == front + t;
    LastField(front, t);
    TokenOf(Print(e));
  }

  ghost predicate AllBlankFree(es: seq<Entry>) {
    forall i :: 0 <= i < |es| ==> BlankFree(es[i].typ)
  }

  lemma TypesLast(es: seq<Entry>)
    requires es != []
    ensures var n := |es| - 1; Types(es) == Types(es[..n]) + [es[n].typ]
  {
  }

  lemma BlankFreeEntry(e: Entry)
    requires WellFormed(e) && BlankFree(e.typ)
    ensures LastToken(Print(e)) == [e.typ]
  {
    assert "" + e.typ == e.typ;
    EntryComesBack(e, "", e.typ);
  }

  lemma {:induction false} BlankFreeTypes(es: seq<Entry>)
    requires AllWellFormed(es) && AllBlankFree(es)
    ensures LastFields(es) == Types(es)
  {
    if es != [] {
      var n := |es| - 1;
      BlankFreeTypes(es[..n]);
      BlankFreeEntry(es[n]);
      TypesLast(es);
    }
  }

  lemma ExtractPrinted(es: seq<Entry>)
    requires AllWellFormed(es) && AllBlankFree(es)
    ensures Extract(PrintList(es)) == Types(es)
  {
    ListComesBack(es);
    BlankFreeTypes(es);
  }

  ghost predicate Tight(s: string) {
    s != "" && !IsBlank(s[0]) && !IsBlank(s[|s| - 1])
  }

  lemma TrimTight(s: string)
    requires Tight(s)
    ensures Trim(s) == s && Trim(" " + s) == s
  {
    assert (" " + s)[1..] == s;
  }

  // ----- The round trip -----

  lemma Cuts(pre: string, body: string, tail: string, s: string)
    requires s == pre + "(" + body + ")" + tail
    ensures |s| == |pre| + |body| + |tail| + 2
    ensures s[|pre| + 1..|pre| + 1 + |body|] == body && s[|pre| + 2 + |body|..] == tail
  {
  }

  lemma OpensAt(pre: string, body: string, tail: string, s: string)
    requires '(' !in pre && s == pre + "(" + body + ")" + tail
    ensures IndexOf(s, '(') == |pre|
  {
    FirstIndex(pre, '(', body + ")" + tail);
    assert s == pre + ['('] + (body + ")" + tail);
  }

  lemma ClosesBody(pre: string, body: string, tail: string, s: string)
    requires Matched(body) && s == pre + "(" + body + ")" + tail
    ensures |pre| <= |s| && Closing(s, |pre|, |pre|) == |pre| + 1 + |body|
  {
    ClosedAfter(pre, body, tail);
  }

  /** The parameter list is found and what follows it is left for the results. */
  lemma ParseParts(pre: string, body: string, tail: string)
    requires '(' !in pre && Matched(body)
    ensures Parse(pre + "(" + body + ")" + tail) == Parsed(Extract(body), ReturnTypes(Trim(tail)))
  {
    var sig := pre + "(" + body + ")" + tail;
    Cuts(pre, body, tail, sig);
    OpensAt(pre, body, tail, sig);
    ClosesBody(pre, body, tail, sig);
    ParseBetweenIs(sig, |pre|, |pre| + 1 + |body|, body, tail);
  }

  lemma ParseBetweenIs(sig: string, open: nat, close: nat, body: string, tail: string)
    requires open < close < |sig| && sig[open + 1..close] == body && sig[close + 1..] == tail
    requires IndexOf(sig, '(') == open && Closing(sig, open, open) == close
    ensures Parse(sig) == Parsed(Extract(body), ReturnTypes(Trim(tail)))
  {
    ParseCut(sig, open, close, body, tail);
    ParseIs(sig, open, close);
  }

  lemma ParseCut(sig: string, open: nat, close: nat, body: string, tail: string)
    requires open < close < |sig| && sig[open + 1..close] == body && sig[close + 1..] == tail
    ensures ParseAt(sig, open, close) == Parsed(Extract(body), ReturnTypes(Trim(tail)))
  {
  }

  lemma ParseIs(sig: string, open: nat, close: int)
    requires IndexOf(sig, '(') == open < |sig| && Closing(sig, open, open) == close
    ensures Parse(sig) == ParseAt(sig, open, close)
  {
  }

  lemma ParsePrinted(name: string, params: seq<Entry>, tail: string)
    requires '(' !in name && AllWellFormed(params)
    ensures Parse("func " + name + "(" + PrintList(params) + ")" + tail) ==
            Parsed(Extract(PrintList(params)), ReturnTypes(Trim(tail)))
  {
    SplitPrinted(params);
    ParseParts("func " + name, PrintList(params), tail);
  }

  lemma ResultsParts(body: string)
    requires Matched(body)
    ensures ReturnTypes("(" + body + ")") == Extract(body)
  {
    var rest := "" + "(" + body + ")" + "";
    assert rest == "(" + body + ")";
    Cuts("", body, "", rest);
    ClosedAfter("", body, "");
  }

  lemma ResultsPrinted(results: seq<Entry>)
    requires AllWellFormed(results)
    ensures ReturnTypes(Trim(" (" + PrintList(results) + ")")) == Extract(PrintList(results))
  {
    var body := PrintList(results);
    SplitPrinted(results);
    ResultsParts(body);
    assert " (" + body + ")" == " " + ("(" + body + ")");
    TrimTight("(" + body + ")");
  }

  lemma BlankFreeBack(es: seq<Entry>)
    requires Extract(PrintList(es)) == Types(es)
    ensures AllBlankFree(es)
  {
    var s := PrintList(es);
    if Trim(s) != "" {
      TypesAreBlankFree(Split(Trim(s)));
    }
    forall i | 0 <= i < |es| ensures BlankFree(es[i].typ) {
      assert Types(es)[i] in Types(es);
    }
  }

  /** A list comes back exactly when no type in it has a blank. */
  lemma ListRoundTrip(es: seq<Entry>)
    requires AllWellFormed(es)
    ensures Extract(PrintList(es)) == Types(es) <==> AllBlankFree(es)
  {
    if AllBlankFree(es) {
      ExtractPrinted(es);
    }
    if Extract(PrintList(es)) == Types(es) {
      BlankFreeBack(es);
    }
  }

  /** Parsing a printed signature gives back its parameter and result types, exactly when no type has a blank in it. */
  lemma SignatureRoundTrip(name: string, params: seq<Entry>, results: seq<Entry>)
    requires '(' !in name && AllWellFormed(params) && AllWellFormed(results)
    ensures Parse(PrintSig(name, params, results)) == Parsed(Types(params), Types(results))
       <==> AllBlankFree(params) && AllBlankFree(results)
  {
    var tail := " (" + PrintList(results) + ")";
    assert PrintSig(name, params, results) == "func " + name + "(" + PrintList(params) + ")" + tail;
    ParsePrinted(name, params, tail);
    ResultsPrinted(results);
    ListRoundTrip(params);
    ListRoundTrip(results);
  }

  /** A single result without parentheses comes back whole, blanks included. */
  lemma BareResult(name: string, params: seq<Entry>, t: string)
    requires '(' !in name && AllWellFormed(params) && AllBlankFree(params)
    requires Tight(t) && t[0] != '('
    ensures Parse("func " + name + "(" + PrintList(params) + ")" + (" " + t)) == Parsed(Types(params), [t])
  {
    ParsePrinted(name, params, " " + t);
    TrimTight(t);
    ExtractPrinted(params);
  }

  /** With nothing but blanks after the parameters there are no results. */
  lemma NoResults(name: string, params: seq<Entry>, blanks: string)
    requires '(' !in name && AllWellFormed(params) && forall c :: c in blanks ==> IsBlank(c)
    ensures Parse("func " + name + "(" + PrintList(params) + ")" + blanks) == Parsed(Types(params), [])
       <==> AllBlankFree(params)
  {
    ParsePrinted(name, params, blanks);
    TrimBlanks(blanks);
    ListRoundTrip(params);
  }

  lemma {:induction false} TrimBlanks(blanks: string)
    requires forall c :: c in blanks ==> IsBlank(c)
    ensures Trim(blanks) == ""
  {
    if blanks != "" {
      TrimBlanks(blanks[1..]);
    }
  }

  /** With a receiver in front, the receiver is taken for the parameters and the whole rest for one result. */
  lemma ReceiverTaken(receiver: Entry, t: string)
    requires WellFormed(receiver) && BlankFree(receiver.typ) && Tight(t) && t[0] != '('
    ensures Parse("func " + "(" + Print(receiver) + ")" + (" " + t)) == Parsed([receiver.typ], [t])
  {
    PrintedPiece(receiver);
    ParseParts("func ", Print(receiver), " " + t);
    TrimTight(t);
    ExtractPrinted([receiver]);
    assert Types([receiver]) == [receiver.typ];
  }
}
