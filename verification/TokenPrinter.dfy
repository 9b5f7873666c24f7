/** The streaming printer that hides think tags and greys out what stands between them (ds4_cli.c). */
module TokenPrinter {

  const OPEN := "<think>"
  const CLOSE := "</think>"
  const GREY := "\U{001b}[90m"
  const RESET := "\U{001b}[0m"
  const PENDING_CAP: nat := 16

  /** What the printer remembers besides its unfinished tag. */
  datatype Style = Style(inThink: bool, colorOpen: bool, lastNewline: bool)

  /** What scanning some text does: the style it leaves, what it prints, and the unfinished tag at its
      end. */
  datatype Scanned = Scanned(style: Style, output: string, pending: string)

  predicate HasPrefix(b: string, tag: string) {
    |b| >= |tag| && b[..|tag|] == tag
  }

  predicate IsPartialPrefix(b: string, tag: string) {
    |b| < |tag| && tag[..|b|] == b
  }

  // ----- Single effects ------------------------------------------------------------------

  function CharStyle(useColor: bool, s: Style, c: char): Style {
    Style(s.inThink, s.colorOpen || (s.inThink && useColor), c == '\n')
  }

  function CharOutput(useColor: bool, s: Style, c: char): string {
    (if s.inThink && useColor && !s.colorOpen then GREY else "") + [c]
  }

  function ClosedStyle(useColor: bool, s: Style): Style {
    Style(false, s.colorOpen && !useColor, true)
  }

  function ClosedOutput(useColor: bool, s: Style): string {
    (if useColor && s.colorOpen then RESET else "") + (if s.lastNewline then "" else "\n")
  }

  // ----- The scan ------------------------------------------------------------------------

  function Prepend(output: string, r: Scanned): Scanned {
    r.(output := output + r.output)
  }

  /** The text b in one go. Unless it is the last, an unfinished tag at its end is kept back. */
  function Scan(useColor: bool, s: Style, b: string, finish: bool): Scanned
    decreases |b|
  {
    if b == "" then Scanned(s, "", "")
    else if HasPrefix(b, OPEN) then Scan(useColor, s.(inThink := true), b[|OPEN|..], finish)
    else if HasPrefix(b, CLOSE) then
      Prepend(ClosedOutput(useColor, s), Scan(useColor, ClosedStyle(useColor, s), b[|CLOSE|..], finish))
    else if !finish && b[0] == '<' && (IsPartialPrefix(b, OPEN) || IsPartialPrefix(b, CLOSE)) then Scanned(s, "", b)
    else Prepend(CharOutput(useColor, s, b[0]), Scan(useColor, CharStyle(useColor, s, b[0]), b[1..], finish))
  }

  /** A tag that b + more starts with but b does not is cut short by the end of b. */
  lemma CutTag(b: string, more: string, tag: string)
    requires HasPrefix(b + more, tag) && !HasPrefix(b, tag)
    ensures IsPartialPrefix(b, tag)
  {
    assert (b + more)[..|tag|][..|b|] == b;
  }

  lemma LongerPartial(b: string, more: string, tag: string)
    requires IsPartialPrefix(b + more, tag)
    ensures IsPartialPrefix(b, tag)
  {
    assert tag[..|b + more|][..|b|] == b;
  }

  lemma KeptTag(b: string, more: string, tag: string)
    requires HasPrefix(b, tag)
    ensures HasPrefix(b + more, tag) && (b + more)[|tag|..] == b[|tag|..] + more
  {
    assert (b + more)[..|tag|] == b[..|tag|];
  }

  lemma PartialTagStart(b: string, tag: string)
    requires IsPartialPrefix(b, tag) && b != "" && (tag == OPEN || tag == CLOSE)
    ensures b[0] == '<'
  {
    assert b[0] == tag[..|b|][0];
  }

  /** Cutting the text anywhere changes nothing: the scan of a leaves the style and the unfinished tag
      with which scanning b goes on exactly as if a and b had come together. */
  lemma {:induction false} ScanInPieces(useColor: bool, s: Style, a: string, b: string, finish: bool)
    ensures var first := Scan(useColor, s, a, false);
            Scan(useColor, s, a + b, finish)
            == Prepend(first.output, Scan(useColor, first.style, first.pending + b, finish))
    decreases |a|
  {
    var ab := a + b;
    if a == "" {
      assert ab == b && "" + b == b;
    } else if HasPrefix(a, OPEN) {
      KeptTag(a, b, OPEN);
      ScanInPieces(useColor, s.(inThink := true), a[|OPEN|..], b, finish);
    } else if HasPrefix(a, CLOSE) {
      KeptTag(a, b, CLOSE);
      assert !HasPrefix(ab, OPEN) by { assert ab[1] == '/'; }
      ScanInPieces(useColor, ClosedStyle(useColor, s), a[|CLOSE|..], b, finish);
      Associate(ClosedOutput(useColor, s), useColor, ClosedStyle(useColor, s), a[|CLOSE|..], b, finish);
    } else if IsPartialPrefix(a, OPEN) {
      PartialTagStart(a, OPEN);
    } else if IsPartialPrefix(a, CLOSE) {
      PartialTagStart(a, CLOSE);
    } else {
      NoNewTag(a, b, OPEN);
      NoNewTag(a, b, CLOSE);
      assert ab[0] == a[0] && ab[1..] == a[1..] + b;
      ScanInPieces(useColor, CharStyle(useColor, s, a[0]), a[1..], b, finish);
      Associate(CharOutput(useColor, s, a[0]), useColor, CharStyle(useColor, s, a[0]), a[1..], b, finish);
    }
  }

  lemma NoNewTag(a: string, b: string, tag: string)
    requires !HasPrefix(a, tag) && !IsPartialPrefix(a, tag)
    ensures !HasPrefix(a + b, tag) && !IsPartialPrefix(a + b, tag)
  {
    if HasPrefix(a + b, tag) {
      CutTag(a, b, tag);
    }
    if IsPartialPrefix(a + b, tag) {
      LongerPartial(a, b, tag);
    }
  }

  lemma Associate(output: string, useColor: bool, s: Style, a: string, b: string, finish: bool)
    ensures var first := Scan(useColor, s, a, false);
            var rest := Scan(useColor, first.style, first.pending + b, finish);
            Prepend(output, Prepend(first.output, rest)) == Prepend(output + first.output, rest)
  {
    hide Scan;
    var first := Scan(useColor, s, a, false);
    var rest := Scan(useColor, first.style, first.pending + b, finish);
    assert output + (first.output + rest.output) == output + first.output + rest.output;
  }

  /** What is kept back always fits the pending buffer, with room to spare; a final scan keeps nothing
      back. */
  lemma {:induction false} PendingFits(useColor: bool, s: Style, b: string, finish: bool)
    ensures |Scan(useColor, s, b, finish).pending| < |CLOSE| < PENDING_CAP
    ensures finish ==> Scan(useColor, s, b, finish).pending == ""
    decreases |b|
  {
    if b == "" {
    } else if HasPrefix(b, OPEN) {
      PendingFits(useColor, s.(inThink := true), b[|OPEN|..], finish);
    } else if HasPrefix(b, CLOSE) {
      PendingFits(useColor, ClosedStyle(useColor, s), b[|CLOSE|..], finish);
    } else {
      PendingFits(useColor, CharStyle(useColor, s, b[0]), b[1..], finish);
    }
  }

  // ----- What a reader sees --------------------------------------------------------------

  /** The characters of a itself, in grey from the first one on if they belong to a think block. */
  function Shown(grey: bool, a: string): string {
    (if grey && a != "" then "\U{001b}[90m" else "") + a
  }

  /** The style after the characters of a, which hold no tag. */
  function StyleAfter(useColor: bool, s: Style, a: string): Style {
    if a == "" then s
    else Style(s.inThink, s.colorOpen || (s.inThink && useColor), a[|a| - 1] == '\n')
  }

  /** No tag starts at the front of b, and none may still come of it. */
  predicate PlainAt(b: string, finish: bool) {
    && !("<think>" <= b) && !("</think>" <= b)
    && (finish || !(b < "<think>" || b < "</think>"))
  }

  lemma PlainIsNoTag(b: string, finish: bool)
    requires b != "" && PlainAt(b, finish)
    ensures !HasPrefix(b, OPEN) && !HasPrefix(b, CLOSE)
    ensures !finish ==> !IsPartialPrefix(b, OPEN) && !IsPartialPrefix(b, CLOSE)
  {
    assert HasPrefix(b, OPEN) ==> "<think>" <= b;
    assert HasPrefix(b, CLOSE) ==> "</think>" <= b;
    assert IsPartialPrefix(b, OPEN) ==> b < "<think>";
    assert IsPartialPrefix(b, CLOSE) ==> b < "</think>";
  }

  /** The first character of some text, and the others after it. */
  lemma FirstShown(useColor: bool, s: Style, a: string)
    requires a != ""
    ensures var t := CharStyle(useColor, s, a[0]);
            && StyleAfter(useColor, t, a[1..]) == StyleAfter(useColor, s, a)
            && CharOutput(useColor, s, a[0]) + Shown(useColor && t.inThink && !t.colorOpen, a[1..])
               == Shown(useColor && s.inThink && !s.colorOpen, a)
  {
    assert a == [a[0]] + a[1..];
  }

  /** Text in which no tag starts is shown as it is, and what follows goes on from there. */
  lemma {:induction false} PlainThen(useColor: bool, s: Style, a: string, rest: string, finish: bool)
    requires forall k :: 0 <= k < |a| ==> PlainAt((a + rest)[k..], finish)
    ensures Scan(useColor, s, a + rest, finish)
         == Prepend(Shown(useColor && s.inThink && !s.colorOpen, a), Scan(useColor, StyleAfter(useColor, s, a), rest, finish))
    decreases |a|
  {
    hide Shown, StyleAfter, CharStyle, CharOutput, HasPrefix, IsPartialPrefix, PlainAt;
    if a == "" {
      assert a + rest == rest;
      PlainNothing(useColor, s, rest, finish);
    } else {
      var b := a + rest;
      assert b[0] == a[0] && b[1..] == a[1..] + rest && b[0..] == b;
      PlainIsNoTag(b, finish);
      var t := CharStyle(useColor, s, a[0]);
      forall k | 0 <= k < |a[1..]|
        ensures PlainAt((a[1..] + rest)[k..], finish)
      {
        assert (a[1..] + rest)[k..] == b[k + 1..];
      }
      PlainThen(useColor, t, a[1..], rest, finish);
      FirstShown(useColor, s, a);
      var r := Scan(useColor, StyleAfter(useColor, s, a), rest, finish);
      var more := Shown(useColor && t.inThink && !t.colorOpen, a[1..]);
      assert Scan(useColor, s, b, finish) == Prepend(CharOutput(useColor, s, a[0]), Prepend(more, r));
      PrependTwice(CharOutput(useColor, s, a[0]), more, r);
    }
  }

  lemma PlainNothing(useColor: bool, s: Style, rest: string, finish: bool)
    ensures Scan(useColor, s, rest, finish)
         == Prepend(Shown(useColor && s.inThink && !s.colorOpen, ""), Scan(useColor, StyleAfter(useColor, s, ""), rest, finish))
  {
    hide Scan;
    PrependNothing(Scan(useColor, s, rest, finish));
  }

  /** The start of a tag at the end of the text is kept back until more of it comes. */
  lemma TagStartIsKept(useColor: bool, s: Style, rest: string)
    requires rest < "<think>" || rest < "</think>"
    ensures Scan(useColor, s, rest, false) == Scanned(s, "", rest)
  {
    if rest != "" {
      assert IsPartialPrefix(rest, OPEN) || IsPartialPrefix(rest, CLOSE);
      assert rest[0] == '<' && OPEN[1] != CLOSE[1];
      assert |rest| > 1 && rest < "</think>" ==> rest[1] == CLOSE[1];
    }
  }

  lemma OpenThen(useColor: bool, s: Style, rest: string, finish: bool)
    ensures Scan(useColor, s, "<think>" + rest, finish) == Scan(useColor, s.(inThink := true), rest, finish)
  {
    assert ("<think>" + rest)[..|OPEN|] == OPEN && ("<think>" + rest)[|OPEN|..] == rest;
  }

  lemma CloseThen(useColor: bool, s: Style, rest: string, finish: bool)
    ensures Scan(useColor, s, "</think>" + rest, finish)
         == Prepend(ClosedOutput(useColor, s), Scan(useColor, ClosedStyle(useColor, s), rest, finish))
  {
    var b := "</think>" + rest;
    assert b[..|CLOSE|] == CLOSE && b[|CLOSE|..] == rest;
    assert b[1] == '/' && OPEN[1] == 't';
    assert !HasPrefix(b, OPEN);
  }

  /** What a text prints that is plain up to rest, and then what rest prints. */
  lemma PlainOutput(useColor: bool, s: Style, a: string, rest: string, finish: bool)
    requires '<' !in a
    ensures Scan(useColor, s, a + rest, finish).output
         == Shown(useColor && s.inThink && !s.colorOpen, a) + Scan(useColor, StyleAfter(useColor, s, a), rest, finish).output
  {
    hide Scan, Shown, StyleAfter;
    forall k | 0 <= k < |a|
      ensures PlainAt((a + rest)[k..], finish)
    {
      assert (a + rest)[k..][0] == a[k];
    }
    PlainThen(useColor, s, a, rest, finish);
  }

  lemma PlainEnd(useColor: bool, s: Style, a: string, finish: bool)
    requires '<' !in a
    ensures Scan(useColor, s, a, finish).output == Shown(useColor && s.inThink && !s.colorOpen, a)
  {
    hide Scan, Shown, StyleAfter;
    assert a + "" == a;
    PlainOutput(useColor, s, a, "", finish);
    ScanNothing(useColor, StyleAfter(useColor, s, a), finish);
  }

  lemma CloseOutput(useColor: bool, s: Style, c: string, finish: bool)
    requires '<' !in c
    ensures var t := ClosedStyle(useColor, s);
            Scan(useColor, s, "</think>" + c, finish).output
            == ClosedOutput(useColor, s) + Shown(useColor && t.inThink && !t.colorOpen, c)
  {
    hide Scan, Shown, ClosedStyle, ClosedOutput;
    CloseThen(useColor, s, c, finish);
    PlainEnd(useColor, ClosedStyle(useColor, s), c, finish);
  }

  /** The end of a think block, as the block has left the printer. */
  lemma BlockEnd(useColor: bool, b: string, newline: bool, c: string)
    requires '<' !in b && '<' !in c
    ensures var s := Style(true, false, newline);
            var ended := if b == "" then newline else b[|b| - 1] == '\n';
            Scan(useColor, StyleAfter(useColor, s, b), "</think>" + c, true).output
            == (if useColor && b != "" then "\U{001b}[0m" else "") + (if ended then "" else "\n") + c
  {
    hide Scan;
    CloseOutput(useColor, StyleAfter(useColor, Style(true, false, newline), b), c, true);
  }

  lemma Regroup(a: string, g: string, b: string, r: string, n: string, c: string)
    ensures a + (g + b + (r + n + c)) == a + (g + b + r) + n + c
    ensures a + (b + ("" + n + c)) == a + b + n + c
  {
  }

  /** A text with one think block: what stands before it, in it and after it is shown without the tags, the
      block in grey if there are colours, and what follows the block begins on a line of its own. */
  lemma ThinkBlockIsShown(useColor: bool, a: string, b: string, c: string)
    requires '<' !in a && '<' !in b && '<' !in c
    ensures var grey := useColor && b != "";
            var ended := a + b == "" || (a + b)[|a + b| - 1] == '\n';
            Scan(useColor, Style(false, false, true), a + ("<think>" + (b + ("</think>" + c))), true).output
            == a + (if grey then "\U{001b}[90m" + b + "\U{001b}[0m" else b) + (if ended then "" else "\n") + c
  {
    hide Scan;
    var newline := a == "" || a[|a| - 1] == '\n';
    LastOf(a, b);
    BlockText(useColor, a, b, newline, "</think>" + c);
    BlockEnd(useColor, b, newline, c);
    Regroup(a, "\U{001b}[90m", b, "\U{001b}[0m", if (if b == "" then newline else b[|b| - 1] == '\n') then "" else "\n", c);
  }

  lemma LastOf(a: string, b: string)
    ensures (a + b == "" || (a + b)[|a + b| - 1] == '\n')
         == if b == "" then a == "" || a[|a| - 1] == '\n' else b[|b| - 1] == '\n'
  {
    if b == "" {
      assert a + b == a;
    } else {
      assert (a + b)[|a + b| - 1] == b[|b| - 1];
    }
  }

  /** A think block up to its end. */
  lemma BlockText(useColor: bool, a: string, b: string, newline: bool, rest: string)
    requires '<' !in a && '<' !in b && newline == (a == "" || a[|a| - 1] == '\n')
    ensures Scan(useColor, Style(false, false, true), a + ("<think>" + (b + rest)), true).output
         == a + (Shown(useColor, b) + Scan(useColor, StyleAfter(useColor, Style(true, false, newline), b), rest, true).output)
  {
    hide Scan;
    var s0 := Style(false, false, true);
    PlainOutput(useColor, s0, a, "<think>" + (b + rest), true);
    OpenThen(useColor, StyleAfter(useColor, s0, a), b + rest, true);
    assert StyleAfter(useColor, s0, a).(inThink := true) == Style(true, false, newline);
    PlainOutput(useColor, Style(true, false, newline), b, rest, true);
  }

  // ----- Whole texts ---------------------------------------------------------------------

  function Concat(pieces: seq<string>): string {
    if pieces == [] then "" else pieces[0] + Concat(pieces[1..])
  }

  /** Printing the pieces one after the other and then finishing. */
  function PrintPieces(useColor: bool, s: Style, pending: string, pieces: seq<string>): Scanned
    decreases |pieces|
  {
    if pieces == [] then Scan(useColor, s, pending, true)
    else
      var r := Scan(useColor, s, pending + pieces[0], false);
      Prepend(r.output, PrintPieces(useColor, r.style, r.pending, pieces[1..]))
  }

  /** However a text is cut into pieces, printing them one by one and finishing prints the same and
      leaves the same style as printing the whole text at once. */
  lemma {:induction false} CutsDoNotShow(useColor: bool, s: Style, pending: string, pieces: seq<string>)
    ensures PrintPieces(useColor, s, pending, pieces) == Scan(useColor, s, pending + Concat(pieces), true)
    decreases |pieces|
  {
    hide Scan;
    if pieces == [] {
      assert pending + "" == pending;
    } else {
      var r := Scan(useColor, s, pending + pieces[0], false);
      CutsDoNotShow(useColor, r.style, r.pending, pieces[1..]);
      ScanInPieces(useColor, s, pending + pieces[0], Concat(pieces[1..]), true);
      assert pending + pieces[0] + Concat(pieces[1..]) == pending + Concat(pieces);
    }
  }

  // ----- The printer in place ------------------------------------------------------------

  /** token_printer, with everything written to its stream. */
  class Printer {
    const formatThinking: bool
    const useColor: bool
    var inThink: bool
    var colorOpen: bool
    var lastNewline: bool
    const pending: array<char>
    var pendingLen: nat
    var output: string

    ghost predicate Valid()
      reads this, pending
    {
      pending.Length == PENDING_CAP && pendingLen <= PENDING_CAP
    }

    function StyleNow(): Style
      reads this
    {
      Style(inThink, colorOpen, lastNewline)
    }

    ghost function Pending(): string
      requires Valid()
      reads this, pending
    {
      pending[..pendingLen]
    }

    constructor (formatThinking: bool, inThink: bool, useColor: bool)
      ensures Valid() && Pending() == "" && output == "" && StyleNow() == Style(inThink, false, true)
      ensures fresh(pending) && this.formatThinking == formatThinking && this.useColor == useColor
    {
      this.formatThinking, this.useColor := formatThinking, useColor;
      this.inThink, colorOpen, lastNewline := inThink, false, true;
      pending := new char[PENDING_CAP](_ => ' ');
      pendingLen, output := 0, "";
    }

    /** token_printer_reset_color. */
    method ResetColor()
      modifies this`colorOpen, this`output
      ensures colorOpen == (old(colorOpen) && !useColor)
      ensures output == old(output) + if useColor && old(colorOpen) then RESET else ""
    {
      if useColor && colorOpen {
        output := output + RESET;
        colorOpen := false;
      }
    }

    /** token_printer_write_char. */
    method WriteChar(c: char)
      modifies this`colorOpen, this`lastNewline, this`output
      ensures StyleNow() == CharStyle(useColor, old(StyleNow()), c)
      ensures output == old(output) + CharOutput(useColor, old(StyleNow()), c)
    {
      if inThink && useColor && !colorOpen {
        output := output + GREY;
        colorOpen := true;
      }
      output := output + [c];
      lastNewline := c == '\n';
    }

    /** What a closing tag does. */
    method CloseThink()
      modifies this`inThink, this`colorOpen, this`lastNewline, this`output
      ensures StyleNow() == ClosedStyle(useColor, old(StyleNow()))
      ensures output == old(output) + ClosedOutput(useColor, old(StyleNow()))
    {
      inThink := false;
      ResetColor();
      if !lastNewline {
        output := output + "\n";
        lastNewline := true;
      }
    }

    /** The start of a tag waits for the rest of it. */
    method KeepBack(cur: string)
      requires Valid() && |cur| < PENDING_CAP
      modifies this`pendingLen, pending
      ensures Valid() && Pending() == cur
    {
      forall k | 0 <= k < |cur| {
        pending[k] := cur[k];
      }
      pendingLen := |cur|;
      assert pending[..pendingLen] == cur;
    }

    /** token_printer_process: the scan of the unfinished tag and the new text. */
    method Process(text: string, finish: bool)
      requires Valid()
      modifies this, pending
      ensures Valid()
      ensures var r := Scan(useColor, old(StyleNow()), old(Pending()) + text, finish);
              StyleNow() == r.style && Pending() == r.pending && output == old(output) + r.output
    {
      hide Scan, CharOutput, CharStyle, ClosedOutput, ClosedStyle, Prepend, IsPartialPrefix, HasPrefix;
      var buf := pending[..pendingLen] + text;
      ghost var whole := Scan(useColor, StyleNow(), buf, finish);
      ghost var printed := "";
      pendingLen := 0;
      var i := 0;
      assert buf[0..] == buf;
      PrependNothing(whole);
      while i < |buf|
        invariant 0 <= i <= |buf| && Valid() && pendingLen == 0
        invariant output == old(output) + printed
        invariant whole == Prepend(printed, Scan(useColor, StyleNow(), buf[i..], finish))
      {
        var cur := buf[i..];
        ScanStep(useColor, StyleNow(), cur, finish);
        if HasPrefix(cur, OPEN) {
          TagFits(cur, OPEN);
          inThink := true;
          assert cur[|OPEN|..] == buf[i + |OPEN|..];
          i := i + |OPEN|;
          continue;
        }
        if HasPrefix(cur, CLOSE) {
          TagFits(cur, CLOSE);
          PrependTwice(printed, ClosedOutput(useColor, StyleNow()),
                       Scan(useColor, ClosedStyle(useColor, StyleNow()), cur[|CLOSE|..], finish));
          printed := printed + ClosedOutput(useColor, StyleNow());
          CloseThink();
          assert cur[|CLOSE|..] == buf[i + |CLOSE|..];
          i := i + |CLOSE|;
          continue;
        }
        if !finish && cur[0] == '<' && (IsPartialPrefix(cur, OPEN) || IsPartialPrefix(cur, CLOSE)) {
          PartialFits(cur);
          PrependEnd(printed, StyleNow(), cur);
          if |cur| < PENDING_CAP {
            KeepBack(cur);
          }
          return;
        }
        PrependTwice(printed, CharOutput(useColor, StyleNow(), cur[0]),
                     Scan(useColor, CharStyle(useColor, StyleNow(), cur[0]), cur[1..], finish));
        printed := printed + CharOutput(useColor, StyleNow(), cur[0]);
        WriteChar(cur[0]);
        assert cur[1..] == buf[i + 1..];
        i := i + 1;
      }
      ScanNothing(useColor, StyleNow(), finish);
      PrependEnd(printed, StyleNow(), "");
      assert buf[i..] == "";
    }

    /** token_printer_write_text. */
    method WriteText(text: string)
      requires Valid()
      modifies this, pending
      ensures Valid()
      ensures var r := if formatThinking then Scan(useColor, old(StyleNow()), old(Pending()) + text, false)
                       else Scanned(if text == "" then old(StyleNow())
                                    else old(StyleNow()).(lastNewline := text[|text| - 1] == '\n'), text, old(Pending()));
              StyleNow() == r.style && Pending() == r.pending && output == old(output) + r.output
    {
      if formatThinking {
        Process(text, false);
      } else if |text| != 0 {
        output := output + text;
        lastNewline := text[|text| - 1] == '\n';
      }
    }

    /** token_printer_finish: after it no tag is unfinished and the colour is closed. */
    method Finish()
      requires Valid()
      modifies this, pending
      ensures Valid()
      ensures !formatThinking ==> StyleNow() == old(StyleNow()) && Pending() == old(Pending()) && output == old(output)
      ensures formatThinking ==>
                var r := Scan(useColor, old(StyleNow()), old(Pending()), true);
                && StyleNow() == r.style.(colorOpen := r.style.colorOpen && !useColor)
                && Pending() == ""
                && output == old(output) + r.output + if useColor && r.style.colorOpen then RESET else ""
    {
      hide Scan;
      if formatThinking {
        assert Pending() + "" == Pending();
        PendingFits(useColor, StyleNow(), Pending(), true);
        Process("", true);
        ResetColor();
      }
    }
  }

  lemma TagFits(b: string, tag: string)
    requires HasPrefix(b, tag)
    ensures |tag| <= |b|
  {
  }

  lemma PartialFits(b: string)
    requires IsPartialPrefix(b, OPEN) || IsPartialPrefix(b, CLOSE)
    ensures |b| < PENDING_CAP
  {
  }

  lemma PrependEnd(printed: string, s: Style, pending: string)
    ensures Prepend(printed, Scanned(s, "", pending)) == Scanned(s, printed, pending)
  {
    assert printed + "" == printed;
  }

  lemma PrependNothing(r: Scanned)
    ensures Prepend("", r) == r
  {
    assert "" + r.output == r.output;
  }

  lemma PrependTwice(a: string, b: string, r: Scanned)
    ensures Prepend(a, Prepend(b, r)) == Prepend(a + b, r)
  {
    assert a + (b + r.output) == a + b + r.output;
  }

  /** One turn of the scan. */
  lemma ScanStep(useColor: bool, s: Style, b: string, finish: bool)
    requires b != ""
    ensures Scan(useColor, s, b, finish) ==
            if HasPrefix(b, OPEN) then Scan(useColor, s.(inThink := true), b[|OPEN|..], finish)
            else if HasPrefix(b, CLOSE) then
              Prepend(ClosedOutput(useColor, s), Scan(useColor, ClosedStyle(useColor, s), b[|CLOSE|..], finish))
            else if !finish && b[0] == '<' && (IsPartialPrefix(b, OPEN) || IsPartialPrefix(b, CLOSE)) then Scanned(s, "", b)
            else Prepend(CharOutput(useColor, s, b[0]), Scan(useColor, CharStyle(useColor, s, b[0]), b[1..], finish))
  {
  }

  lemma ScanNothing(useColor: bool, s: Style, finish: bool)
    ensures Scan(useColor, s, "", finish) == Scanned(s, "", "")
  {
  }
}
