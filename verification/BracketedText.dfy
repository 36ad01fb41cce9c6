/** What _split_top_level means for text with brackets, quotes and escapes: every text is a list of pieces with
    perhaps something left open at its end, and it is split exactly at the separators among the outermost pieces. */
module BracketedText {
  import opened TopLevelSplit

  // A character between quotes, perhaps behind a backslash.
  datatype Quoted = Char(ch: char) | EscapedChar(ch: char)

  // The kinds of brackets count alike: any closing bracket ends a group.
  datatype Piece = Plain(ch: char) | Escape(ch: char) | Quote(body: seq<Quoted>) | Group(open: char, inner: seq<Piece>, close: char)

  function QuotedText(body: seq<Quoted>): string {
    if body == [] then "" else (if body[0].Char? then [body[0].ch] else ['\\', body[0].ch]) + QuotedText(body[1..])
  }

  function PieceText(p: Piece): string {
    match p
    case Plain(ch) => [ch]
    case Escape(ch) => ['\\', ch]
    case Quote(body) => ['"'] + QuotedText(body) + ['"']
    case Group(open, inner, close) => [open] + Text(inner) + [close]
  }

  function Text(ps: seq<Piece>): string {
    if ps == [] then "" else PieceText(ps[0]) + Text(ps[1..])
  }

  predicate QuotedOK(body: seq<Quoted>) {
    forall c | c in body :: c.Char? ==> c.ch != '\\' && c.ch != '"'
  }

  // Brackets stand only around groups.
  predicate Balanced(p: Piece) {
    match p
    case Plain(ch) => ch !in "<([{>)]}\\\""
    case Escape(_) => true
    case Quote(body) => QuotedOK(body)
    case Group(open, inner, close) => open in "<([{" && close in ">)]}" && AllBalanced(inner)
  }

  predicate AllBalanced(ps: seq<Piece>) {
    ps == [] || (Balanced(ps[0]) && AllBalanced(ps[1..]))
  }

  // Outside all groups a closing bracket closes nothing.
  predicate Outermost(ps: seq<Piece>) {
    forall p | p in ps :: Balanced(p) || (p.Plain? && p.ch in ">)]}")
  }

  // What is left open at the end of a text: groups, one inside the other, and then a quote or a backslash.
  datatype Open = Open(open: char, inner: seq<Piece>)
  datatype End = Nothing | Backslash | OpenQuote(body: seq<Quoted>) | QuoteBackslash(body: seq<Quoted>)
  datatype Document = Document(top: seq<Piece>, opens: seq<Open>, end: End)

  function OpensText(opens: seq<Open>): string {
    if opens == [] then "" else [opens[0].open] + Text(opens[0].inner) + OpensText(opens[1..])
  }

  function EndText(e: End): string {
    match e
    case Nothing => ""
    case Backslash => "\\"
    case OpenQuote(body) => ['"'] + QuotedText(body)
    case QuoteBackslash(body) => ['"'] + QuotedText(body) + ['\\']
  }

  function DocumentText(d: Document): string {
    Text(d.top) + (OpensText(d.opens) + EndText(d.end))
  }

  predicate OpensOK(opens: seq<Open>) {
    forall o | o in opens :: o.open in "<([{" && AllBalanced(o.inner)
  }

  predicate EndOK(e: End) {
    (e.OpenQuote? || e.QuoteBackslash?) ==> QuotedOK(e.body)
  }

  predicate DocumentOK(d: Document) {
    Outermost(d.top) && OpensOK(d.opens) && EndOK(d.end)
  }

  // The texts between the separators among the outermost pieces; the rest of the text belongs to the last.
  function OuterParts(ps: seq<Piece>, current: string, rest: string, sep: char): seq<string> {
    if ps == [] then [current + rest]
    else if ps[0] == Plain(sep) then [current] + OuterParts(ps[1..], "", rest, sep)
    else OuterParts(ps[1..], current + PieceText(ps[0]), rest, sep)
  }

  // ----- Scanning balanced text -----

  predicate Clear(m: Mode) { !m.quote && !m.escaped }

  lemma {:induction false} ScanQuoted(m: Mode, body: seq<Quoted>)
    requires m.quote && !m.escaped && QuotedOK(body)
    ensures Scan(m, QuotedText(body)) == m
    decreases body
  {
    if body != [] {
      var x, y := if body[0].Char? then [body[0].ch] else ['\\', body[0].ch], QuotedText(body[1..]);
      ScanJoin(m, x, y);
      assert x[1..] == if body[0].Char? then "" else [body[0].ch];
      ScanQuoted(m, body[1..]);
      if body[0].EscapedChar? { ScanOne(Next(m, '\\'), body[0].ch); } else { ScanOne(m, body[0].ch); }
    }
  }

  // A balanced text leaves the scan as it was.
  lemma {:induction false} ScanBalanced(m: Mode, ps: seq<Piece>)
    requires Clear(m) && AllBalanced(ps)
    ensures Scan(m, Text(ps)) == m
    decreases ps
  {
    hide Scan, Next, PieceText, Balanced;
    if ps == [] {
      ScanNothing(m);
    } else {
      ScanJoin(m, PieceText(ps[0]), Text(ps[1..]));
      ScanPiece(m, ps[0]);
      ScanBalanced(m, ps[1..]);
    }
  }

  lemma ScanNothing(m: Mode)
    ensures Scan(m, "") == m
  {
  }

  lemma {:induction false} ScanPiece(m: Mode, p: Piece)
    requires Clear(m) && Balanced(p)
    ensures Scan(m, PieceText(p)) == m
    decreases p
  {
    hide Scan;
    match p
    case Plain(ch) => ScanOne(m, ch);
    case Escape(ch) =>
      assert PieceText(p) == ['\\'] + [ch];
      ScanJoin(m, ['\\'], [ch]);
      ScanOne(m, '\\');
      ScanOne(Next(m, '\\'), ch);
    case Quote(body) =>
      ScanJoin(m, ['"'] + QuotedText(body), ['"']);
      ScanJoin(m, ['"'], QuotedText(body));
      ScanOne(m, '"');
      ScanQuoted(Next(m, '"'), body);
      ScanOne(Next(m, '"'), '"');
    case Group(open, inner, close) =>
      ScanJoin(m, [open] + Text(inner), [close]);
      ScanJoin(m, [open], Text(inner));
      ScanOne(m, open);
      ScanBalanced(Next(m, open), inner);
      ScanOne(Next(m, open), close);
  }

  // ----- Where the splits are -----

  // One character that does not split joins the open part.
  lemma PartsOne(m: Mode, current: string, ch: char, rest: string, sep: char)
    requires !SplitsAt(m, ch, sep)
    ensures PartsFrom(m, current, [ch] + rest, sep) == PartsFrom(Next(m, ch), current + [ch], rest, sep)
  {
    assert ([ch] + rest)[0] == ch && ([ch] + rest)[1..] == rest;
  }

  lemma {:induction false} PartsQuoted(m: Mode, current: string, body: seq<Quoted>, rest: string, sep: char)
    requires m.quote && !m.escaped && QuotedOK(body)
    ensures PartsFrom(m, current, QuotedText(body) + rest, sep) == PartsFrom(m, current + QuotedText(body), rest, sep)
    decreases body
  {
    hide PartsFrom;
    if body == [] {
      assert QuotedText(body) + rest == rest && current + QuotedText(body) == current;
    } else {
      var c, more := body[0], QuotedText(body[1..]);
      if c.Char? {
        assert QuotedText(body) + rest == [c.ch] + (more + rest) && current + [c.ch] + more == current + QuotedText(body);
        PartsOne(m, current, c.ch, more + rest, sep);
        PartsQuoted(m, current + [c.ch], body[1..], rest, sep);
      } else {
        assert QuotedText(body) + rest == ['\\'] + ([c.ch] + (more + rest)) && current + ['\\'] + [c.ch] + more == current + QuotedText(body);
        PartsOne(m, current, '\\', [c.ch] + (more + rest), sep);
        PartsOne(Next(m, '\\'), current + ['\\'], c.ch, more + rest, sep);
        PartsQuoted(m, current + ['\\'] + [c.ch], body[1..], rest, sep);
      }
    }
  }

  // No piece ends a part inside itself, and none inside a group does.
  lemma {:induction false} PartsPiece(m: Mode, current: string, p: Piece, rest: string, sep: char)
    requires Clear(m) && Balanced(p) && (m.depth > 0 || p != Plain(sep))
    ensures PartsFrom(m, current, PieceText(p) + rest, sep) == PartsFrom(m, current + PieceText(p), rest, sep)
    decreases p
  {
    hide PartsFrom;
    match p
    case Plain(ch) => PartsOne(m, current, ch, rest, sep);
    case Escape(ch) =>
      assert PieceText(p) + rest == ['\\'] + ([ch] + rest) && current + ['\\'] + [ch] == current + PieceText(p);
      PartsOne(m, current, '\\', [ch] + rest, sep);
      PartsOne(Next(m, '\\'), current + ['\\'], ch, rest, sep);
    case Quote(body) =>
      var text := QuotedText(body);
      assert PieceText(p) + rest == ['"'] + (text + (['"'] + rest)) && current + ['"'] + text + ['"'] == current + PieceText(p);
      PartsOne(m, current, '"', text + (['"'] + rest), sep);
      PartsQuoted(Next(m, '"'), current + ['"'], body, ['"'] + rest, sep);
      PartsOne(Next(m, '"'), current + ['"'] + text, '"', rest, sep);
    case Group(open, inner, close) =>
      var text := Text(inner);
      assert PieceText(p) + rest == [open] + (text + ([close] + rest)) && current + [open] + text + [close] == current + PieceText(p);
      PartsOne(m, current, open, text + ([close] + rest), sep);
      PartsInner(Next(m, open), current + [open], inner, [close] + rest, sep);
      PartsOne(Next(m, open), current + [open] + text, close, rest, sep);
  }

  lemma {:induction false} PartsInner(m: Mode, current: string, ps: seq<Piece>, rest: string, sep: char)
    requires Clear(m) && m.depth > 0 && AllBalanced(ps)
    ensures PartsFrom(m, current, Text(ps) + rest, sep) == PartsFrom(m, current + Text(ps), rest, sep)
    decreases ps
  {
    hide PartsFrom, PieceText, Balanced;
    if ps == [] {
      assert Text(ps) + rest == rest && current + Text(ps) == current;
    } else {
      var x, y := PieceText(ps[0]), Text(ps[1..]);
      assert Text(ps) + rest == x + (y + rest) && current + x + y == current + Text(ps);
      PartsPiece(m, current, ps[0], y + rest, sep);
      PartsInner(m, current + x, ps[1..], rest, sep);
    }
  }

  lemma OpenerStep(m: Mode, ch: char, sep: char)
    requires Clear(m) && ch in "<([{"
    ensures !SplitsAt(m, ch, sep) && Clear(Next(m, ch)) && Next(m, ch).depth > 0
  {
  }

  lemma QuoteStep(m: Mode, sep: char)
    requires Clear(m)
    ensures !SplitsAt(m, '"', sep) && !SplitsAt(m, '\\', sep)
    ensures var q := Next(m, '"'); q.quote && !q.escaped && !SplitsAt(q, '\\', sep)
  {
  }

  lemma Regroup(x: string, y: string, z: string)
    ensures x + y + z == x + (y + z)
  {
  }

  // What is left open belongs to the last part.
  lemma {:induction false} PartsOpen(m: Mode, current: string, opens: seq<Open>, e: End, sep: char)
    requires Clear(m) && OpensOK(opens) && EndOK(e)
    ensures PartsFrom(m, current, OpensText(opens) + EndText(e), sep) == [current + (OpensText(opens) + EndText(e))]
    decreases opens
  {
    hide PartsFrom, EndText, SplitsAt, Next, Text, AllBalanced, EndOK, Clear;
    if opens == [] {
      assert OpensText(opens) + EndText(e) == EndText(e);
      PartsEnd(m, current, e, sep);
    } else {
      var o, more := opens[0], OpensText(opens[1..]) + EndText(e);
      var all := [o.open] + (Text(o.inner) + more);
      Regroup([o.open] + Text(o.inner), OpensText(opens[1..]), EndText(e));
      Regroup([o.open], Text(o.inner), more);
      assert OpensText(opens) + EndText(e) == all;
      OpenerStep(m, o.open, sep);
      PartsOne(m, current, o.open, Text(o.inner) + more, sep);
      PartsInner(Next(m, o.open), current + [o.open], o.inner, more, sep);
      PartsOpen(Next(m, o.open), current + [o.open] + Text(o.inner), opens[1..], e, sep);
      Regroup(current, [o.open], Text(o.inner));
      Regroup(current, [o.open] + Text(o.inner), more);
    }
  }

  lemma PartsEnd(m: Mode, current: string, e: End, sep: char)
    requires Clear(m) && EndOK(e)
    ensures PartsFrom(m, current, EndText(e), sep) == [current + EndText(e)]
  {
    hide SplitsAt, Next, QuotedOK, QuotedText, Clear, PartsFrom;
    QuoteStep(m, sep);
    match e
    case Nothing =>
      assert current + "" == current;
      PartsNone(m, current, sep);
    case Backslash =>
      assert ['\\'] + "" == EndText(e);
      PartsOne(m, current, '\\', "", sep);
      PartsNone(Next(m, '\\'), current + ['\\'], sep);
    case OpenQuote(body) =>
      PartsQuoteEnd(m, current, body, "", sep);
      PartsNone(Next(m, '"'), current + (['"'] + QuotedText(body)), sep);
      assert ['"'] + QuotedText(body) + "" == EndText(e);
    case QuoteBackslash(body) =>
      var q, text := Next(m, '"'), ['"'] + QuotedText(body);
      PartsQuoteEnd(m, current, body, ['\\'], sep);
      assert ['\\'] + "" == ['\\'];
      PartsOne(q, current + text, '\\', "", sep);
      PartsNone(Next(q, '\\'), current + text + ['\\'], sep);
      Regroup(current, text, ['\\']);
  }

  lemma PartsNone(m: Mode, current: string, sep: char)
    ensures PartsFrom(m, current, "", sep) == [current]
  {
  }

  // A quote that is not closed.
  lemma PartsQuoteEnd(m: Mode, current: string, body: seq<Quoted>, rest: string, sep: char)
    requires Clear(m) && QuotedOK(body)
    ensures PartsFrom(m, current, ['"'] + QuotedText(body) + rest, sep) == PartsFrom(Next(m, '"'), current + (['"'] + QuotedText(body)), rest, sep)
  {
    hide SplitsAt, Next, QuotedOK, QuotedText, Clear, PartsFrom;
    QuoteStep(m, sep);
    var text := QuotedText(body);
    Regroup(['"'], text, rest);
    PartsOne(m, current, '"', text + rest, sep);
    PartsQuoted(Next(m, '"'), current + ['"'], body, rest, sep);
    Regroup(current, ['"'], text);
  }

  lemma {:induction false} PartsOuter(ps: seq<Piece>, current: string, opens: seq<Open>, e: End, sep: char)
    requires Outermost(ps) && OpensOK(opens) && EndOK(e)
    ensures var rest := OpensText(opens) + EndText(e);
            PartsFrom(NEUTRAL, current, Text(ps) + rest, sep) == OuterParts(ps, current, rest, sep)
    decreases ps
  {
    hide PartsFrom, PieceText, EndText, OpensText, OpensOK, EndOK, Balanced;
    var rest := OpensText(opens) + EndText(e);
    if ps == [] {
      assert Text(ps) + rest == rest;
      PartsOpen(NEUTRAL, current, opens, e, sep);
    } else {
      var x, y := PieceText(ps[0]), Text(ps[1..]) + rest;
      assert Text(ps) + rest == x + y;
      PartsOuter(ps[1..], if ps[0] == Plain(sep) then "" else current + x, opens, e, sep);
      OuterOne(current, ps[0], y, sep);
    }
  }

  // A separator outside every group, quote and escape ends a part; nothing else does.
  lemma OuterOne(current: string, p: Piece, rest: string, sep: char)
    requires Balanced(p) || (p.Plain? && p.ch in ">)]}")
    ensures PartsFrom(NEUTRAL, current, PieceText(p) + rest, sep) ==
            if p == Plain(sep) then [current] + PartsFrom(NEUTRAL, "", rest, sep) else PartsFrom(NEUTRAL, current + PieceText(p), rest, sep)
  {
    if p == Plain(sep) {
      assert (PieceText(p) + rest)[0] == sep && (PieceText(p) + rest)[1..] == rest;
    } else if p.Plain? {
      PartsOne(NEUTRAL, current, p.ch, rest, sep);
    } else {
      PartsPiece(NEUTRAL, current, p, rest, sep);
    }
  }

  // The text of a document is split exactly at the separators among its outermost pieces.
  lemma SplitsOutermost(d: Document, sep: char)
    requires DocumentOK(d)
    ensures Split(DocumentText(d), sep) == OuterParts(d.top, "", OpensText(d.opens) + EndText(d.end), sep)
  {
    PartsOuter(d.top, "", d.opens, d.end, sep);
  }

  // ----- Every text is such a document -----

  lemma {:induction false} TextSnoc(ps: seq<Piece>, p: Piece)
    ensures Text(ps + [p]) == Text(ps) + PieceText(p)
  {
    hide PieceText;
    if ps == [] {
      assert ps + [p] == [p] && [p][1..] == [];
    } else {
      assert (ps + [p])[1..] == ps[1..] + [p];
      TextSnoc(ps[1..], p);
    }
  }

  lemma {:induction false} BalancedSnoc(ps: seq<Piece>, p: Piece)
    requires AllBalanced(ps) && Balanced(p)
    ensures AllBalanced(ps + [p])
  {
    hide Balanced;
    if ps == [] {
      assert [p][1..] == [];
    } else {
      assert (ps + [p])[1..] == ps[1..] + [p];
      BalancedSnoc(ps[1..], p);
    }
  }

  lemma {:induction false} QuotedSnoc(body: seq<Quoted>, c: Quoted)
    ensures QuotedText(body + [c]) == QuotedText(body) + if c.Char? then [c.ch] else ['\\', c.ch]
  {
    if body == [] {
      assert body + [c] == [c] && [c][1..] == [];
    } else {
      assert (body + [c])[1..] == body[1..] + [c];
      QuotedSnoc(body[1..], c);
    }
  }

  lemma {:induction false} OpensSnoc(opens: seq<Open>, o: Open)
    ensures OpensText(opens + [o]) == OpensText(opens) + ([o.open] + Text(o.inner))
  {
    hide Text;
    if opens == [] {
      assert opens + [o] == [o] && [o][1..] == [];
    } else {
      assert (opens + [o])[1..] == opens[1..] + [o];
      OpensSnoc(opens[1..], o);
    }
  }

  ghost predicate Reads(text: string) {
    exists d :: DocumentOK(d) && DocumentText(d) == text
  }

  lemma ReadsAs(d: Document, text: string)
    requires DocumentOK(d) && DocumentText(d) == text
    ensures Reads(text)
  {
  }

  lemma OpensAre(opens: seq<Open>, o: Open)
    ensures OpensOK(opens + [o]) <==> OpensOK(opens) && o.open in "<([{" && AllBalanced(o.inner)
  {
    hide AllBalanced;
    assert forall x :: x in opens + [o] <==> x in opens || x == o;
  }

  lemma OutermostSnoc(top: seq<Piece>, p: Piece)
    requires Outermost(top) && (Balanced(p) || (p.Plain? && p.ch in ">)]}"))
    ensures Outermost(top + [p])
  {
    hide Balanced;
  }

  lemma NothingOpen()
    ensures OpensText([]) == "" && OpensOK([])
  {
  }

  // A finished piece joins the innermost open group ...
  lemma AddInner(top: seq<Piece>, init: seq<Open>, o: Open, p: Piece)
    requires Outermost(top) && OpensOK(init + [o]) && Balanced(p)
    ensures Reads(Text(top) + OpensText(init + [o]) + PieceText(p))
  {
    hide PieceText, Balanced, Text, AllBalanced, OpensOK, OpensText, DocumentText, Outermost;
    var x := Open(o.open, o.inner + [p]);
    OpensAre(init, o);
    OpensSnoc(init, o);
    TextSnoc(o.inner, p);
    BalancedSnoc(o.inner, p);
    OpensAre(init, x);
    OpensSnoc(init, x);
    EndOf(top, init + [x], Nothing);
    ReadsAs(Document(top, init + [x], Nothing), Text(top) + OpensText(init + [o]) + PieceText(p));
  }

  // ... or the outermost pieces.
  lemma AddOuter(top: seq<Piece>, p: Piece)
    requires Outermost(top) && (Balanced(p) || (p.Plain? && p.ch in ">)]}"))
    ensures Reads(Text(top) + PieceText(p))
  {
    hide PieceText, Balanced, Text, OpensOK, OpensText, DocumentText, Outermost;
    OutermostSnoc(top, p);
    TextSnoc(top, p);
    NothingOpen();
    EndOf(top + [p], [], Nothing);
    ReadsAs(Document(top + [p], [], Nothing), Text(top) + PieceText(p));
  }

  lemma AddPiece(top: seq<Piece>, opens: seq<Open>, p: Piece)
    requires Outermost(top) && OpensOK(opens) && Balanced(p)
    ensures Reads(Text(top) + OpensText(opens) + PieceText(p))
  {
    hide PieceText, Balanced, Text, OpensText, OpensOK, Outermost, Reads;
    if opens == [] {
      NothingOpen();
      AddOuter(top, p);
      assert Text(top) + "" == Text(top);
    } else {
      var n := |opens| - 1;
      assert opens == opens[..n] + [opens[n]];
      AddInner(top, opens[..n], opens[n], p);
    }
  }

  // The next character after a document with nothing half read.
  lemma AddPlain(top: seq<Piece>, opens: seq<Open>, ch: char)
    requires Outermost(top) && OpensOK(opens)
    ensures Reads(Text(top) + OpensText(opens) + [ch])
  {
    hide Balanced, Text, OpensText, AllBalanced, DocumentText;
    var text := Text(top) + OpensText(opens) + [ch];
    if ch == '\\' || ch == '"' {
      var e := if ch == '"' then OpenQuote([]) else Backslash;
      EndOf(top, opens, e);
      ReadsAs(Document(top, opens, e), text);
    } else if ch in "<([{" {
      OpensSnoc(opens, Open(ch, []));
      NoText();
      EndOf(top, opens + [Open(ch, [])], Nothing);
      ReadsAs(Document(top, opens + [Open(ch, [])], Nothing), text);
    } else if ch in ">)]}" {
      Close(top, opens, ch);
    } else {
      assert Balanced(Plain(ch)) by { PlainBalanced(ch); }
      AddPiece(top, opens, Plain(ch));
    }
  }

  lemma PlainBalanced(ch: char)
    requires ch != '\\' && ch != '"' && ch !in "<([{" && ch !in ">)]}"
    ensures Balanced(Plain(ch))
  {
  }

  lemma NoText()
    ensures Text([]) == "" && AllBalanced([])
  {
  }

  lemma EndOf(top: seq<Piece>, opens: seq<Open>, e: End)
    ensures DocumentText(Document(top, opens, e)) == Text(top) + OpensText(opens) + EndText(e)
  {
  }

  lemma Close(top: seq<Piece>, opens: seq<Open>, ch: char)
    requires Outermost(top) && OpensOK(opens) && ch in ">)]}"
    ensures Reads(Text(top) + OpensText(opens) + [ch])
  {
    hide Text, Balanced, AllBalanced, OpensText, OpensOK, Outermost, Reads;
    if opens == [] {
      NothingOpen();
      AddOuter(top, Plain(ch));
      assert Text(top) + "" == Text(top);
    } else {
      var n := |opens| - 1;
      var init, o := opens[..n], opens[n];
      assert opens == init + [o];
      OpensSnoc(init, o);
      OpensAre(init, o);
      var g := Group(o.open, o.inner, ch);
      GroupBalanced(o, ch);
      AddPiece(top, init, g);
      assert Text(top) + OpensText(init) + PieceText(g) == Text(top) + OpensText(opens) + [ch];
    }
  }

  lemma GroupBalanced(o: Open, ch: char)
    requires o.open in "<([{" && AllBalanced(o.inner) && ch in ">)]}"
    ensures Balanced(Group(o.open, o.inner, ch))
  {
  }

  lemma AddChar(d: Document, ch: char)
    requires DocumentOK(d)
    ensures Reads(DocumentText(d) + [ch])
  {
    hide Balanced, Text, OpensText, QuotedText, Outermost, OpensOK, DocumentText;
    EndOf(d.top, d.opens, d.end);
    match d.end
    case Nothing =>
      AddPlain(d.top, d.opens, ch);
      assert Text(d.top) + OpensText(d.opens) + [ch] == DocumentText(d) + [ch];
    case Backslash =>
      assert Balanced(Escape(ch)) by { EscapeBalanced(ch, []); }
      AddPiece(d.top, d.opens, Escape(ch));
      assert Text(d.top) + OpensText(d.opens) + PieceText(Escape(ch)) == DocumentText(d) + [ch];
    case OpenQuote(body) =>
      if ch == '"' {
        assert Balanced(Quote(body)) by { EscapeBalanced(ch, body); }
        AddPiece(d.top, d.opens, Quote(body));
        assert Text(d.top) + OpensText(d.opens) + PieceText(Quote(body)) == DocumentText(d) + [ch];
      } else {
        var e := if ch == '\\' then QuoteBackslash(body) else OpenQuote(body + [Char(ch)]);
        QuotedSnoc(body, Char(ch));
        EndOf(d.top, d.opens, e);
        ReadsAs(Document(d.top, d.opens, e), DocumentText(d) + [ch]);
      }
    case QuoteBackslash(body) =>
      var e := OpenQuote(body + [EscapedChar(ch)]);
      QuotedSnoc(body, EscapedChar(ch));
      EndOf(d.top, d.opens, e);
      ReadsAs(Document(d.top, d.opens, e), DocumentText(d) + [ch]);
  }

  lemma EscapeBalanced(ch: char, body: seq<Quoted>)
    requires QuotedOK(body)
    ensures Balanced(Escape(ch)) && Balanced(Quote(body))
  {
  }

  lemma {:induction false} EveryTextReads(text: string)
    ensures exists d :: DocumentOK(d) && DocumentText(d) == text
  {
    hide DocumentText, DocumentOK;
    if text == "" {
      EmptyReads();
    } else {
      var n := |text| - 1;
      EveryTextReads(text[..n]);
      var d :| DocumentOK(d) && DocumentText(d) == text[..n];
      AddChar(d, text[n]);
      assert text[..n] + [text[n]] == text;
    }
  }

  lemma EmptyReads()
    ensures Reads("")
  {
    assert DocumentText(Document([], [], Nothing)) == "";
    ReadsAs(Document([], [], Nothing), "");
  }
}
