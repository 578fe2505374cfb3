/**
 The CSV line parser of the subscription import (api/src/utils/importExport.ts) against the
 rendering of section 2 of RFC 4180.
 */
module CsvLines {

  /** The white space String.prototype.trim removes. */
  predicate IsSpace(c: char) {
    || c == ' ' || '\U{0009}' <= c <= '\U{000D}'
    || c == '\U{00A0}' || c == '\U{1680}' || '\U{2000}' <= c <= '\U{200A}'
    || c == '\U{2028}' || c == '\U{2029}' || c == '\U{202F}' || c == '\U{205F}' || c == '\U{3000}' || c == '\U{FEFF}'
  }

  function TrimStart(s: string): string {
    if s != "" && IsSpace(s[0]) then TrimStart(s[1..]) else s
  }

  function TrimEnd(s: string): string {
    if s != "" && IsSpace(s[|s| - 1]) then TrimEnd(s[..|s| - 1]) else s
  }

  function Trim(s: string): string { TrimEnd(TrimStart(s)) }

  function TrimAll(fields: seq<string>): seq<string> {
    seq(|fields|, i requires 0 <= i < |fields| => Trim(fields[i]))
  }

  // ---------------------------------------------------------------------------
  // Parsing
  // ---------------------------------------------------------------------------

  /** The fields read from the rest of the line, the first one continuing `current`. */
  function Fields(line: string, current: string, inQuotes: bool): seq<string>
    decreases |line|
  {
    if line == "" then [current]
    else if line[0] == '"' then
      if inQuotes && |line| > 1 && line[1] == '"' then Fields(line[2..], current + "\"", inQuotes)
      else Fields(line[1..], current, !inQuotes)
    else if line[0] == ',' && !inQuotes then [current] + Fields(line[1..], "", inQuotes)
    else Fields(line[1..], current + [line[0]], inQuotes)
  }

  method ParseCsvLine(line: string) returns (fields: seq<string>)
    ensures fields == TrimAll(Fields(line, "", false))
  {
    var values: seq<string> := [];
    var current, inQuotes, index := "", false, 0;
    while index < |line|
      invariant 0 <= index <= |line|
      invariant values + Fields(line[index..], current, inQuotes) == Fields(line, "", false)
      decreases |line| - index
    {
      var c := line[index];
      ghost var rest := line[index..];
      if c == '"' {
        if inQuotes && index + 1 < |line| && line[index + 1] == '"' {
          assert rest[2..] == line[index + 2..];
          current := current + "\"";
          index := index + 1;
        } else {
          assert rest[1..] == line[index + 1..];
          inQuotes := !inQuotes;
        }
      } else if c == ',' && !inQuotes {
        assert rest[1..] == line[index + 1..];
        values := values + [current];
        current := "";
      } else {
        assert rest[1..] == line[index + 1..];
        current := current + [c];
      }
      index := index + 1;
    }
    values := values + [current];
    fields := TrimAll(values);
  }

  // ---------------------------------------------------------------------------
  // Rendering
  // ---------------------------------------------------------------------------

  function DoubleQuotes(s: string): string {
    if s == "" then "" else (if s[0] == '"' then "\"\"" else [s[0]]) + DoubleQuotes(s[1..])
  }

  /** A field as section 2 of RFC 4180 allows: enclosed in quotes with inner quotes doubled, or plain. */
  function RenderField(s: string, quoted: bool): string {
    if quoted then "\"" + DoubleQuotes(s) + "\"" else s
  }

  function Render(fields: seq<string>, quoted: seq<bool>): string
    requires |fields| == |quoted|
  {
    if fields == [] then ""
    else if |fields| == 1 then RenderField(fields[0], quoted[0])
    else RenderField(fields[0], quoted[0]) + "," + Render(fields[1..], quoted[1..])
  }

  /** A plain field may not hold a comma or a quote. */
  predicate MayBePlain(s: string) {
    forall i | 0 <= i < |s| :: s[i] != ',' && s[i] != '"'
  }

  lemma {:induction false} QuotedBody(s: string, current: string, tail: string)
    requires tail == "" || tail[0] != '"'
    ensures Fields(DoubleQuotes(s) + "\"" + tail, current, true) == Fields(tail, current + s, false)
    decreases |s|
  {
    var line := DoubleQuotes(s) + "\"" + tail;
    if s == "" {
      assert line == "\"" + tail;
      assert line[1..] == tail && current + s == current;
    } else {
      var rest := DoubleQuotes(s[1..]) + "\"" + tail;
      QuotedBody(s[1..], current + [s[0]], tail);
      assert current + [s[0]] + s[1..] == current + s;
      if s[0] == '"' {
        assert line == "\"\"" + rest;
        assert line[2..] == rest;
      } else {
        assert line == [s[0]] + rest;
        assert line[1..] == rest;
      }
    }
  }

  lemma {:induction false} PlainBody(s: string, current: string, tail: string)
    requires MayBePlain(s)
    ensures Fields(s + tail, current, false) == Fields(tail, current + s, false)
    decreases |s|
  {
    if s == "" {
      assert s + tail == tail && current + s == current;
    } else {
      PlainBody(s[1..], current + [s[0]], tail);
      assert (s + tail)[1..] == s[1..] + tail;
      assert current + [s[0]] + s[1..] == current + s;
    }
  }

  lemma OpeningQuote(rest: string)
    ensures Fields("\"" + rest, "", false) == Fields(rest, "", true)
  {
    assert ("\"" + rest)[1..] == rest;
  }

  lemma FieldThenTail(s: string, quoted: bool, tail: string)
    requires quoted || MayBePlain(s)
    requires tail == "" || tail[0] == ','
    ensures Fields(RenderField(s, quoted) + tail, "", false) == Fields(tail, s, false)
  {
    if quoted {
      OpeningQuote(DoubleQuotes(s) + "\"" + tail);
      assert RenderField(s, true) + tail == "\"" + (DoubleQuotes(s) + "\"" + tail);
      QuotedBody(s, "", tail);
      assert "" + s == s;
    } else {
      PlainBody(s, "", tail);
      assert "" + s == s;
    }
  }

  lemma FieldThenComma(s: string, quoted: bool, rest: string)
    requires quoted || MayBePlain(s)
    ensures Fields(RenderField(s, quoted) + "," + rest, "", false) == [s] + Fields(rest, "", false)
  {
    FieldThenTail(s, quoted, "," + rest);
    assert RenderField(s, quoted) + ("," + rest) == RenderField(s, quoted) + "," + rest;
    assert ("," + rest)[1..] == rest;
  }

  lemma {:induction false} FieldsOfRendering(fields: seq<string>, quoted: seq<bool>)
    requires |fields| == |quoted| && fields != []
    requires forall i | 0 <= i < |fields| :: quoted[i] || MayBePlain(fields[i])
    ensures Fields(Render(fields, quoted), "", false) == fields
    decreases |fields|
  {
    if |fields| == 1 {
      FieldThenTail(fields[0], quoted[0], "");
      assert RenderField(fields[0], quoted[0]) + "" == Render(fields, quoted);
    } else {
      var rest := Render(fields[1..], quoted[1..]);
      FieldsOfRendering(fields[1..], quoted[1..]);
      FieldThenComma(fields[0], quoted[0], rest);
      assert fields == [fields[0]] + fields[1..];
    }
  }

  /**
   Round trip: parsing a rendered line gives back every field, trimmed; so the line's fields come
   back unchanged exactly when none of them has white space at its ends.
   */
  lemma ParseInvertsRender(fields: seq<string>, quoted: seq<bool>)
    requires |fields| == |quoted| && fields != []
    requires forall i | 0 <= i < |fields| :: quoted[i] || MayBePlain(fields[i])
    ensures TrimAll(Fields(Render(fields, quoted), "", false)) == TrimAll(fields)
    ensures TrimAll(Fields(Render(fields, quoted), "", false)) == fields
        <==> forall s | s in fields :: s == "" || (!IsSpace(s[0]) && !IsSpace(s[|s| - 1]))
  {
    FieldsOfRendering(fields, quoted);
    forall i | 0 <= i < |fields|
      ensures Trim(fields[i]) == fields[i] <==>
          fields[i] == "" || (!IsSpace(fields[i][0]) && !IsSpace(fields[i][|fields[i]| - 1]))
    {
      TrimKeepsExactly(fields[i]);
    }
    if TrimAll(fields) == fields {
      forall i | 0 <= i < |fields|
        ensures Trim(fields[i]) == fields[i]
      {
        assert TrimAll(fields)[i] == Trim(fields[i]);
      }
    }
  }

  lemma {:induction false} TrimStartShorter(s: string)
    ensures |TrimStart(s)| <= |s|
  {
    if s != "" && IsSpace(s[0]) { TrimStartShorter(s[1..]); }
  }

  lemma {:induction false} TrimEndShorter(s: string)
    ensures |TrimEnd(s)| <= |s|
  {
    if s != "" && IsSpace(s[|s| - 1]) { TrimEndShorter(s[..|s| - 1]); }
  }

  lemma TrimKeepsExactly(s: string)
    ensures Trim(s) == s <==> s == "" || (!IsSpace(s[0]) && !IsSpace(s[|s| - 1]))
  {
    if s != "" {
      if IsSpace(s[0]) {
        TrimStartShorter(s[1..]);
        TrimEndShorter(TrimStart(s));
      } else if IsSpace(s[|s| - 1]) {
        TrimEndShorter(s[..|s| - 1]);
      }
    }
  }

  // ---------------------------------------------------------------------------
  // Trimming
  // ---------------------------------------------------------------------------

  ghost predicate AllSpace(s: string) {
    forall c | c in s :: IsSpace(c)
  }

  ghost predicate NoOuterSpace(s: string) {
    s == "" || (!IsSpace(s[0]) && !IsSpace(s[|s| - 1]))
  }

  lemma {:induction false} TrimStartSkips(a: string, rest: string)
    requires AllSpace(a)
    ensures TrimStart(a + rest) == TrimStart(rest)
  {
    if a == "" {
      assert a + rest == rest;
    } else {
      assert (a + rest)[1..] == a[1..] + rest;
      TrimStartSkips(a[1..], rest);
    }
  }

  lemma {:induction false} TrimEndDrops(front: string, b: string)
    requires AllSpace(b)
    ensures TrimEnd(front + b) == TrimEnd(front)
  {
    if b == "" {
      assert front + b == front;
    } else {
      assert b[|b| - 1] in b;
      assert (front + b)[..|front + b| - 1] == front + b[..|b| - 1];
      TrimEndDrops(front, b[..|b| - 1]);
    }
  }

  lemma {:induction false} TrimStartLeaves(s: string) returns (a: string)
    ensures s == a + TrimStart(s) && AllSpace(a) && (TrimStart(s) == "" || !IsSpace(TrimStart(s)[0]))
  {
    if s != "" && IsSpace(s[0]) {
      a := TrimStartLeaves(s[1..]);
      assert s == [s[0]] + s[1..];
      a := [s[0]] + a;
    } else {
      a := "";
    }
  }

  lemma {:induction false} TrimEndLeaves(s: string) returns (b: string)
    ensures s == TrimEnd(s) + b && AllSpace(b)
    ensures TrimEnd(s) == "" || (!IsSpace(TrimEnd(s)[|TrimEnd(s)| - 1]) && TrimEnd(s)[0] == s[0])
  {
    if s != "" && IsSpace(s[|s| - 1]) {
      b := TrimEndLeaves(s[..|s| - 1]);
      assert s == s[..|s| - 1] + [s[|s| - 1]];
      b := b + [s[|s| - 1]];
    } else {
      b := "";
    }
  }

  ghost predicate Around(s: string, a: string, t: string, b: string) {
    s == a + t + b && AllSpace(a) && AllSpace(b)
  }

  lemma TrimFindsMiddle(a: string, t: string, b: string)
    requires AllSpace(a) && AllSpace(b) && NoOuterSpace(t)
    ensures Trim(a + t + b) == t
  {
    assert a + t + b == a + (t + b);
    TrimStartSkips(a, t + b);
    if t == "" {
      assert t + b == b + "";
      TrimStartSkips(b, "");
    } else {
      assert TrimStart(t + b) == t + b;
      TrimEndDrops(t, b);
    }
  }

  /** A text trimmed is the one part of it without white space at its ends that has only white space around it. */
  lemma TrimExactly(s: string, t: string)
    ensures t == Trim(s) <==> NoOuterSpace(t) && exists a, b :: Around(s, a, t, b)
  {
    var a := TrimStartLeaves(s);
    var b := TrimEndLeaves(TrimStart(s));
    assert s == a + Trim(s) + b;
    assert Around(s, a, Trim(s), b);
    if NoOuterSpace(t) && exists c, d :: Around(s, c, t, d) {
      var c, d :| Around(s, c, t, d);
      TrimFindsMiddle(c, t, d);
    }
  }

  // ---------------------------------------------------------------------------
  // Fields quoted in part
  // ---------------------------------------------------------------------------

  /** A stretch of a field as it stands in a line. */
  datatype Piece = Plain(text: string) | Quoted(text: string)

  function SourceOf(pieces: seq<Piece>): string {
    if pieces == [] then ""
    else RenderField(pieces[0].text, pieces[0].Quoted?) + SourceOf(pieces[1..])
  }

  function ValueOf(pieces: seq<Piece>): string {
    if pieces == [] then "" else pieces[0].text + ValueOf(pieces[1..])
  }

  /** Quoted pieces, with something plain between any two of them. */
  predicate Readable(pieces: seq<Piece>) {
    pieces == [] ||
    (Readable(pieces[1..]) &&
     match pieces[0]
     case Plain(text) => text != "" && MayBePlain(text)
     case Quoted(text) => |pieces| > 1 ==> pieces[1].Plain?)
  }

  lemma {:induction false} PiecesBody(pieces: seq<Piece>, current: string, tail: string)
    requires Readable(pieces) && (tail == "" || tail[0] == ',')
    ensures Fields(SourceOf(pieces) + tail, current, false) == Fields(tail, current + ValueOf(pieces), false)
    decreases |pieces|
  {
    if pieces == [] {
      assert SourceOf(pieces) + tail == tail && current + ValueOf(pieces) == current;
    } else {
      var p, rest := pieces[0], SourceOf(pieces[1..]) + tail;
      PiecesBody(pieces[1..], current + p.text, tail);
      Associate(current, p.text, ValueOf(pieces[1..]));
      Associate(RenderField(p.text, p.Quoted?), SourceOf(pieces[1..]), tail);
      if p.Quoted? { QuotedThenRest(pieces, tail); }
      PieceIsRead(p, current, rest);
    }
  }

  lemma Associate(a: string, b: string, c: string)
    ensures a + b + c == a + (b + c)
  {
  }

  lemma PieceIsRead(p: Piece, current: string, rest: string)
    requires if p.Plain? then MayBePlain(p.text) else rest == "" || rest[0] != '"'
    ensures Fields(RenderField(p.text, p.Quoted?) + rest, current, false) == Fields(rest, current + p.text, false)
  {
    if p.Plain? {
      PlainBody(p.text, current, rest);
    } else {
      OpenedQuote(p.text, current, rest);
      Associate("\"" + DoubleQuotes(p.text), "\"", rest);
      Associate("\"", DoubleQuotes(p.text), "\"" + rest);
      Associate(DoubleQuotes(p.text), "\"", rest);
    }
  }

  lemma QuotedThenRest(pieces: seq<Piece>, tail: string)
    requires Readable(pieces) && pieces != [] && pieces[0].Quoted? && (tail == "" || tail[0] == ',')
    ensures var rest := SourceOf(pieces[1..]) + tail; rest == "" || rest[0] != '"'
  {
    if |pieces| > 1 {
      assert SourceOf(pieces[1..]) == pieces[1].text + SourceOf(pieces[2..]) by {
        assert pieces[1..][1..] == pieces[2..];
      }
    }
  }

  lemma OpenedQuote(s: string, current: string, rest: string)
    requires rest == "" || rest[0] != '"'
    ensures Fields("\"" + (DoubleQuotes(s) + "\"" + rest), current, false) == Fields(rest, current + s, false)
  {
    QuotedBody(s, current, rest);
    assert ("\"" + (DoubleQuotes(s) + "\"" + rest))[1..] == DoubleQuotes(s) + "\"" + rest;
  }

  function ValuesOf(fields: seq<seq<Piece>>): seq<string> {
    if fields == [] then [] else [ValueOf(fields[0])] + ValuesOf(fields[1..])
  }

  function LineOf(fields: seq<seq<Piece>>): string {
    if fields == [] then ""
    else if |fields| == 1 then SourceOf(fields[0])
    else SourceOf(fields[0]) + "," + LineOf(fields[1..])
  }

  /**
   A field may change between plain and quoted anywhere: what is read is its pieces put together, and
   only a comma outside quotes ends it.
   */
  lemma {:induction false} PiecesAreRead(fields: seq<seq<Piece>>)
    requires fields != [] && forall i | 0 <= i < |fields| :: Readable(fields[i])
    ensures Fields(LineOf(fields), "", false) == ValuesOf(fields)
    decreases |fields|
  {
    if |fields| == 1 {
      LastFieldIsRead(fields[0]);
      assert ValuesOf(fields) == [ValueOf(fields[0])];
    } else {
      PiecesAreRead(fields[1..]);
      FieldBeforeComma(fields[0], LineOf(fields[1..]));
    }
  }

  lemma LastFieldIsRead(pieces: seq<Piece>)
    requires Readable(pieces)
    ensures Fields(SourceOf(pieces), "", false) == [ValueOf(pieces)]
  {
    PiecesBody(pieces, "", "");
    assert SourceOf(pieces) + "" == SourceOf(pieces) && "" + ValueOf(pieces) == ValueOf(pieces);
  }

  lemma FieldBeforeComma(pieces: seq<Piece>, rest: string)
    requires Readable(pieces)
    ensures Fields(SourceOf(pieces) + "," + rest, "", false) == [ValueOf(pieces)] + Fields(rest, "", false)
  {
    PiecesBody(pieces, "", "," + rest);
    Associate(SourceOf(pieces), ",", rest);
    assert "" + ValueOf(pieces) == ValueOf(pieces);
    CommaEnds(ValueOf(pieces), rest);
  }

  lemma CommaEnds(current: string, rest: string)
    ensures Fields("," + rest, current, false) == [current] + Fields(rest, "", false)
  {
    assert ("," + rest)[1..] == rest;
  }

  /** A quote that is never closed takes in the rest of the line, commas and all. */
  lemma {:induction false} UnclosedQuoteTakesRest(s: string, current: string)
    ensures Fields(DoubleQuotes(s), current, true) == [current + s]
    decreases |s|
  {
    if s != "" {
      var line, rest := DoubleQuotes(s), DoubleQuotes(s[1..]);
      UnclosedQuoteTakesRest(s[1..], current + [s[0]]);
      assert current + [s[0]] + s[1..] == current + s;
      assert line == (if s[0] == '"' then "\"\"" else [s[0]]) + rest;
      assert if s[0] == '"' then line[2..] == rest else line[1..] == rest;
    } else {
      assert current + s == current;
    }
  }
}
