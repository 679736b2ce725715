/** The SubRip block grammar read by `_populateFromString:`: a number
    line, a times line `HH:MM:SS,mmm --> HH:MM:SS,mmm`, text lines, and a
    blank line closing the block. This module holds the reference parser
    as functions over the lines of the document, one per parser state,
    and the de-facto block form that it accepts. */
module SubRipFormat {
  import opened Wrappers
  import opened Decimal
  import opened Timecode
  import opened Lines

  /** `SubRipScanPosition`: the part of a block the parser expects next. */
  datatype ScanPosition = ArrayIndex | Times | Text

  /** The value of one cue: times in milliseconds and the cue's text, its
      lines joined with `\n`. */
  datatype Cue = Cue(startTime: nat, endTime: nat, text: string)

  /** A line holding nothing but spaces and tabs (the empty line included). */
  predicate IsBlank(line: string) {
    forall i :: 0 <= i < |line| ==> line[i] == ' ' || line[i] == '\t'
  }

  /** The sequence-number line of a block: one or more decimal digits. */
  predicate IsIndexLine(line: string) {
    |line| > 0 && AllDigits(line)
  }

  /** Reads `start --> end`, optionally followed by a space and positioning
      tokens, which are ignored. */
  function ParseTimesLine(line: string): (r: Option<(nat, nat)>)
    ensures r.Some? ==> 27 <= |line|
    ensures r.Some? ==> ParseTimecode(line).Some? && r.value.0 == ParseTimecode(line).value.0
  {
    match ParseTimecode(line)
    case None => None
    case Some((start, j)) =>
      if j + 5 > |line| || line[j..j + 5] != " --> " then None
      else
        var rest := line[j + 5..];
        match ParseTimecode(rest)
        case None => None
        case Some((end, k)) =>
          if k < |rest| && rest[k] != ' ' then None else Some((start, end))
  }

  /** Adds one text line to the text gathered so far for a cue. */
  function AppendTextLine(text: string, line: string): string {
    if text == "" then line else text + "\n" + line
  }

  // ---------------------------------------------------------------------
  // The reference parser: one function per state of the scan. Each takes
  // the lines not read yet and the cues finished so far, and gives the
  // cues of the whole document, or `None` as soon as a line does not fit
  // the state. Nothing of a malformed document is kept.

  /** Between blocks (`SubRipScanPositionArrayIndex`): blank lines are
      skipped, a number line opens a block, anything else is an error. The
      end of the text here ends the document. */
  function ScanIndex(lines: seq<string>, items: seq<Cue>): Option<seq<Cue>>
    decreases |lines|
  {
    if lines == [] then Some(items)
    else
      var line := Chomp(lines[0]);
      if IsBlank(line) then ScanIndex(lines[1..], items)
      else if IsIndexLine(line) then ScanTimes(lines[1..], items)
      else None
  }

  /** After a number line (`SubRipScanPositionTimes`): the line must be a
      times line, which opens a cue with no text yet. A number line with no
      times line after it, at the end of the text, is an error. */
  function ScanTimes(lines: seq<string>, items: seq<Cue>): Option<seq<Cue>>
    decreases |lines|
  {
    if lines == [] then None
    else
      match ParseTimesLine(Chomp(lines[0]))
      case None => None
      case Some((start, end)) => ScanText(lines[1..], Cue(start, end, ""), items)
  }

  /** Inside a cue (`SubRipScanPositionText`): a blank line finishes the
      cue `pending`; any other line is added to its text. The end of the
      text finishes the cue as well. */
  function ScanText(lines: seq<string>, pending: Cue, items: seq<Cue>): Option<seq<Cue>>
    decreases |lines|
  {
    if lines == [] then Some(items + [pending])
    else
      var line := Chomp(lines[0]);
      if IsBlank(line) then ScanIndex(lines[1..], items + [pending])
      else ScanText(lines[1..], pending.(text := AppendTextLine(pending.text, line)), items)
  }

  /** The scan in state `pos`, with `pending` the cue being read. */
  function Scan(lines: seq<string>, pos: ScanPosition, pending: Cue, items: seq<Cue>): Option<seq<Cue>> {
    match pos
    case ArrayIndex => ScanIndex(lines, items)
    case Times => ScanTimes(lines, items)
    case Text => ScanText(lines, pending, items)
  }

  /** The cues of a whole document, in the order of their blocks, or `None`
      when any block is malformed. */
  function ParseDocument(s: string): (r: Option<seq<Cue>>)
    ensures s == "" ==> r == Some([])
  {
    assert s == "" ==> SplitLines(s) == [""] && IsBlank(Chomp("")) && [""][1..] == [];
    ScanIndex(SplitLines(s), [])
  }

  // ---------------------------------------------------------------------
  // The de-facto block form, the inverse used in the round-trip lemma.

  function TimesLine(c: Cue): string {
    ConvertTimeToString(c.startTime) + " --> " + ConvertTimeToString(c.endTime)
  }

  function TextLines(text: string): seq<string> {
    if text == "" then [] else SplitLines(text)
  }

  /** A cue text the block form can carry: no carriage return and no blank
      line (a blank line would end the block). */
  predicate WellFormedText(text: string) {
    && (forall i :: 0 <= i < |text| ==> text[i] != '\r')
    && (text == "" || forall k :: 0 <= k < |SplitLines(text)| ==> !IsBlank(SplitLines(text)[k]))
  }

  predicate WellFormedCues(cues: seq<Cue>) {
    forall k :: 0 <= k < |cues| ==> WellFormedText(cues[k].text)
  }

  /** One block: number line, times line, text lines, closing blank line. */
  function BlockLines(number: nat, c: Cue): seq<string> {
    [Digits(number), TimesLine(c)] + TextLines(c.text) + [""]
  }

  /** The blocks of `cues`, numbered from `first`, one per cue. */
  function Blocks(cues: seq<Cue>, first: nat): (bs: seq<seq<string>>)
    ensures |bs| == |cues|
  {
    seq(|cues|, k requires 0 <= k < |cues| => BlockLines(first + k, cues[k]))
  }

  /** The lines of consecutive blocks. */
  function Concat(bs: seq<seq<string>>): seq<string> {
    if bs == [] then [] else bs[0] + Concat(bs[1..])
  }

  function DocumentLines(cues: seq<Cue>, first: nat): seq<string> {
    Concat(Blocks(cues, first))
  }

  /** A document in the de-facto SubRip form, blocks numbered from 1. */
  function RenderDocument(cues: seq<Cue>): string {
    JoinLines(DocumentLines(cues, 1) + [""])
  }

  // ---------------------------------------------------------------------
  // Times lines.

  /** The times line of a cue, with or without trailing positioning
      tokens, reads back as the cue's two times. */
  lemma ParseTimesLineOf(c: Cue, extra: string)
    requires extra == [] || extra[0] == ' '
    ensures ParseTimesLine(TimesLine(c) + extra) == Some((c.startTime, c.endTime))
  {
    var a, b := ConvertTimeToString(c.startTime), ConvertTimeToString(c.endTime);
    ParseConvertedTime(c.startTime, " --> " + b + extra);
    ParseConvertedTime(c.endTime, extra);
    ParseArrowLine(a, b, extra, c.startTime, c.endTime);
  }

  /** Two timecodes joined by the arrow, then nothing or a space and
      anything, make a times line. */
  lemma ParseArrowLine(a: string, b: string, extra: string, start: nat, end: nat)
    requires ParseTimecode(a + (" --> " + b + extra)) == Some((start, |a|))
    requires ParseTimecode(b + extra) == Some((end, |b|))
    requires extra == [] || extra[0] == ' '
    ensures ParseTimesLine(a + " --> " + b + extra) == Some((start, end))
  {
    var line := a + " --> " + b + extra;
    ArrowJoinParts(a, b, extra);
    ParseTimesLineFrom(line, start, |a|, end, |b|);
  }

  lemma ArrowJoinParts(a: string, b: string, extra: string)
    ensures var line := a + " --> " + b + extra;
            && line == a + (" --> " + b + extra)
            && line[|a|..|a| + 5] == " --> "
            && line[|a| + 5..] == b + extra
            && (|extra| > 0 ==> (b + extra)[|b|] == extra[0])
  {
    var line := a + " --> " + b + extra;
    assert line == a + " --> " + (b + extra);
  }

  /** The three parts of a times line, read one after the other. */
  lemma ParseTimesLineFrom(line: string, start: nat, j: nat, end: nat, k: nat)
    requires ParseTimecode(line) == Some((start, j))
    requires j + 5 <= |line| && line[j..j + 5] == " --> "
    requires ParseTimecode(line[j + 5..]) == Some((end, k))
    requires k == |line[j + 5..]| || line[j + 5..][k] == ' '
    ensures ParseTimesLine(line) == Some((start, end))
  {
  }

  predicate ArrowAt(line: string, j: nat) {
    j + 5 <= |line| && line[j..j + 5] == " --> "
  }

  /** A line without the ` --> ` separator is never a times line. */
  lemma TimesLineNeedsArrow(line: string)
    requires ParseTimesLine(line).Some?
    ensures exists j :: ArrowAt(line, j)
  {
    var j := ParseTimecode(line).value.1;
    assert ArrowAt(line, j);
  }

  lemma ChompTimesLine(c: Cue)
    ensures Chomp(TimesLine(c)) == TimesLine(c)
  {
    var b := ConvertTimeToString(c.endTime);
    ConvertedShape(c.endTime);
    assert TimesLine(c)[|TimesLine(c)| - 1] == b[|b| - 1];
    assert IsTimecodeChar(b[|b| - 1]);
  }

  lemma ChompDigits(n: nat)
    ensures Chomp(Digits(n)) == Digits(n) && IsIndexLine(Digits(n))
  {
    assert IsDigit(Digits(n)[|Digits(n)| - 1]);
  }

  // ---------------------------------------------------------------------
  // Cue text.

  /** The text gathered from the lines `ls` after `text`. */
  function AppendLines(text: string, ls: seq<string>): string
    decreases |ls|
  {
    if ls == [] then text else AppendLines(AppendTextLine(text, ls[0]), ls[1..])
  }

  lemma {:induction false} AppendLinesJoin(text: string, ls: seq<string>)
    requires text != "" && |ls| >= 1
    ensures AppendLines(text, ls) == text + "\n" + JoinLines(ls)
    decreases |ls|
  {
    if |ls| > 1 {
      AppendLinesJoin(text + "\n" + ls[0], ls[1..]);
    }
  }

  /** The text lines of a well-formed cue text gather back into that text. */
  lemma GatherTextLines(text: string)
    requires WellFormedText(text)
    ensures AppendLines("", TextLines(text)) == text
  {
    if text != "" {
      var ls := SplitLines(text);
      assert !IsBlank(ls[0]);
      JoinSplit(text);
      if |ls| > 1 {
        AppendLinesJoin(ls[0], ls[1..]);
      }
    }
  }

  predicate NoTrailingReturn(line: string) {
    |line| == 0 || line[|line| - 1] != '\r'
  }

  lemma TextLinesShape(text: string)
    requires WellFormedText(text)
    ensures forall k :: 0 <= k < |TextLines(text)| ==>
              !IsBlank(TextLines(text)[k]) && NoTrailingReturn(TextLines(text)[k]) && NoNewline(TextLines(text)[k])
  {
    if text != "" {
      var ls := SplitLines(text);
      JoinSplit(text);
      forall k | 0 <= k < |ls|
        ensures NoTrailingReturn(ls[k])
      {
        if |ls[k]| > 0 {
          LineInsideText(ls, k, |ls[k]| - 1);
        }
      }
    }
  }

  /** Every character of a line is a character of the joined text. */
  lemma {:induction false} LineInsideText(ls: seq<string>, k: nat, i: nat)
    requires |ls| >= 1 && k < |ls| && i < |ls[k]|
    ensures exists j :: 0 <= j < |JoinLines(ls)| && JoinLines(ls)[j] == ls[k][i]
  {
    if |ls| == 1 {
      assert JoinLines(ls)[i] == ls[0][i];
    } else if k == 0 {
      assert JoinLines(ls)[i] == ls[0][i];
    } else {
      LineInsideText(ls[1..], k - 1, i);
      var j :| 0 <= j < |JoinLines(ls[1..])| && JoinLines(ls[1..])[j] == ls[k][i];
      assert JoinLines(ls)[|ls[0]| + 1 + j] == ls[k][i];
    }
  }

  // ---------------------------------------------------------------------
  // Properties of the parser, block by block.

  /** A number line moves the scan to the times-line state. */
  lemma ScanIndexLine(index: string, tail: seq<string>, items: seq<Cue>)
    requires IsIndexLine(Chomp(index))
    ensures ScanIndex([index] + tail, items) == ScanTimes(tail, items)
  {
    assert ([index] + tail)[0] == index && ([index] + tail)[1..] == tail;
    assert !IsBlank(Chomp(index)) by {
      assert IsDigit(Chomp(index)[0]);
    }
  }

  /** A times line opens a cue with those times and no text yet. */
  lemma ScanTimesLine(times: string, body: seq<string>, items: seq<Cue>, start: nat, end: nat)
    requires ParseTimesLine(Chomp(times)) == Some((start, end))
    ensures ScanTimes([times] + body, items) == ScanText(body, Cue(start, end, ""), items)
  {
    assert ([times] + body)[0] == times && ([times] + body)[1..] == body;
  }

  /** A blank line between blocks is skipped. */
  lemma ScanIndexBlank(blank: string, tail: seq<string>, items: seq<Cue>)
    requires IsBlank(Chomp(blank))
    ensures ScanIndex([blank] + tail, items) == ScanIndex(tail, items)
  {
    assert ([blank] + tail)[0] == blank && ([blank] + tail)[1..] == tail;
  }

  /** A line that is neither blank nor a number line where a block should
      start ends the scan with a failure. */
  lemma ScanIndexStray(stray: string, tail: seq<string>, items: seq<Cue>)
    requires !IsBlank(Chomp(stray)) && !IsIndexLine(Chomp(stray))
    ensures ScanIndex([stray] + tail, items) == None
  {
    assert ([stray] + tail)[0] == stray;
  }

  /** A line that is not a times line after a number line ends the scan
      with a failure. */
  lemma ScanTimesBad(bad: string, tail: seq<string>, items: seq<Cue>)
    requires ParseTimesLine(Chomp(bad)).None?
    ensures ScanTimes([bad] + tail, items) == None
  {
    assert ([bad] + tail)[0] == bad;
  }

  /** A blank line finishes the pending cue. */
  lemma ScanTextBlank(blank: string, tail: seq<string>, c: Cue, items: seq<Cue>)
    requires IsBlank(Chomp(blank))
    ensures ScanText([blank] + tail, c, items) == ScanIndex(tail, items + [c])
  {
    assert ([blank] + tail)[0] == blank && ([blank] + tail)[1..] == tail;
  }

  /** Any other line inside a cue is added to its text. */
  lemma ScanTextLine(line: string, tail: seq<string>, c: Cue, items: seq<Cue>)
    requires !IsBlank(Chomp(line))
    ensures ScanText([line] + tail, c, items) == ScanText(tail, c.(text := AppendTextLine(c.text, Chomp(line))), items)
  {
    assert ([line] + tail)[0] == line && ([line] + tail)[1..] == tail;
  }

  /** Text lines followed by a blank line: the cue is finished with the
      gathered text and appended. */
  lemma {:induction false} ScanTextLines(ls: seq<string>, rest: seq<string>, c: Cue, items: seq<Cue>)
    requires forall k :: 0 <= k < |ls| ==> !IsBlank(ls[k]) && NoTrailingReturn(ls[k])
    ensures var done := c.(text := AppendLines(c.text, ls));
            ScanText(ls + [""] + rest, c, items) == ScanIndex(rest, items + [done])
  {
    if ls == [] {
      assert ([] + [""] + rest)[1..] == rest;
    } else {
      assert (ls + [""] + rest)[1..] == ls[1..] + [""] + rest;
      assert Chomp(ls[0]) == ls[0];
      ScanTextLines(ls[1..], rest, c.(text := AppendTextLine(c.text, ls[0])), items);
    }
  }

  /** The number line and the times line of a block open a cue with no
      text yet. */
  lemma ScanHead(index: string, times: string, body: seq<string>, start: nat, end: nat, items: seq<Cue>)
    requires IsIndexLine(Chomp(index))
    requires ParseTimesLine(Chomp(times)) == Some((start, end))
    ensures ScanIndex([index, times] + body, items) == ScanText(body, Cue(start, end, ""), items)
  {
    assert [index, times] + body == [index] + ([times] + body);
    ScanIndexLine(index, [times] + body, items);
    ScanTimesLine(times, body, items, start, end);
  }

  /** A block given by its lines: a number line, a times line and text
      lines that gather into the cue's text, then a blank line. */
  lemma ScanBlockOf(index: string, times: string, tl: seq<string>, c: Cue, rest: seq<string>, items: seq<Cue>)
    requires IsIndexLine(Chomp(index))
    requires ParseTimesLine(Chomp(times)) == Some((c.startTime, c.endTime))
    requires forall k :: 0 <= k < |tl| ==> !IsBlank(tl[k]) && NoTrailingReturn(tl[k])
    requires AppendLines("", tl) == c.text
    ensures ScanIndex([index, times] + tl + [""] + rest, items) == ScanIndex(rest, items + [c])
  {
    var body := tl + [""] + rest;
    assert [index, times] + tl + [""] + rest == [index, times] + body;
    ScanHead(index, times, body, c.startTime, c.endTime, items);
    ScanTextLines(tl, rest, Cue(c.startTime, c.endTime, ""), items);
  }

  /** A whole block is read as one cue, appended after the cues before it. */
  lemma ScanBlock(number: nat, c: Cue, rest: seq<string>, items: seq<Cue>)
    requires WellFormedText(c.text)
    ensures ScanIndex(BlockLines(number, c) + rest, items) == ScanIndex(rest, items + [c])
  {
    ChompDigits(number);
    ChompTimesLine(c);
    ParseTimesLineOf(c, "");
    assert TimesLine(c) + "" == TimesLine(c);
    TextLinesShape(c.text);
    GatherTextLines(c.text);
    ScanBlockOf(Digits(number), TimesLine(c), TextLines(c.text), c, rest, items);
  }

  /** `b` is read as the single cue `c`, whatever comes after it. */
  ghost predicate ReadsAs(b: seq<string>, c: Cue) {
    forall rest: seq<string>, items: seq<Cue> :: ScanIndex(b + rest, items) == ScanIndex(rest, items + [c])
  }

  lemma BlocksReadAs(cues: seq<Cue>, first: nat)
    requires WellFormedCues(cues)
    ensures forall k :: 0 <= k < |cues| ==> ReadsAs(Blocks(cues, first)[k], cues[k])
  {
    forall k, rest: seq<string>, items: seq<Cue> | 0 <= k < |cues|
      ensures ScanIndex(BlockLines(first + k, cues[k]) + rest, items) == ScanIndex(rest, items + [cues[k]])
    {
      ScanBlock(first + k, cues[k], rest, items);
    }
  }

  /** Consecutive blocks, each read as its own cue, are read as those cues
      in order. */
  lemma {:induction false} ScanConcat(bs: seq<seq<string>>, cues: seq<Cue>, rest: seq<string>, items: seq<Cue>)
    requires |bs| == |cues|
    requires forall k :: 0 <= k < |bs| ==> ReadsAs(bs[k], cues[k])
    ensures ScanIndex(Concat(bs) + rest, items) == ScanIndex(rest, items + cues)
  {
    if bs == [] {
      assert Concat(bs) + rest == rest;
      assert items + cues == items;
    } else {
      ConcatCons(bs, rest);
      ReadsAsAt(bs[0], cues[0], Concat(bs[1..]) + rest, items);
      ReadsAsTail(bs, cues);
      ScanConcat(bs[1..], cues[1..], rest, items + [cues[0]]);
      assert items + [cues[0]] + cues[1..] == items + cues;
    }
  }

  /** Consecutive blocks followed by more lines: the first block, then the
      rest. */
  lemma ConcatCons(bs: seq<seq<string>>, rest: seq<string>)
    requires bs != []
    ensures Concat(bs) + rest == bs[0] + (Concat(bs[1..]) + rest)
  {
  }

  /** `ReadsAs` for one choice of what comes after. */
  lemma ReadsAsAt(b: seq<string>, c: Cue, rest: seq<string>, items: seq<Cue>)
    requires ReadsAs(b, c)
    ensures ScanIndex(b + rest, items) == ScanIndex(rest, items + [c])
  {
  }

  /** The blocks after the first are still each read as their cue. */
  lemma ReadsAsTail(bs: seq<seq<string>>, cues: seq<Cue>)
    requires |bs| == |cues| && bs != []
    requires forall k :: 0 <= k < |bs| ==> ReadsAs(bs[k], cues[k])
    ensures forall k :: 0 <= k < |bs| - 1 ==> ReadsAs(bs[1..][k], cues[1..][k])
  {
    forall k | 0 <= k < |bs| - 1 ensures ReadsAs(bs[1..][k], cues[1..][k]) {
      assert bs[1..][k] == bs[k + 1] && cues[1..][k] == cues[k + 1];
    }
  }

  /** A run of well-formed blocks is read as its cues, in order. */
  lemma ScanBlocks(cues: seq<Cue>, first: nat, rest: seq<string>, items: seq<Cue>)
    requires WellFormedCues(cues)
    ensures ScanIndex(DocumentLines(cues, first) + rest, items) == ScanIndex(rest, items + cues)
  {
    BlocksReadAs(cues, first);
    ScanConcat(Blocks(cues, first), cues, rest, items);
  }

  // ---------------------------------------------------------------------
  // No rendered line holds a line break.

  lemma DigitsNoNewline(n: nat)
    ensures NoNewline(Digits(n))
  {
    forall i | 0 <= i < |Digits(n)| ensures Digits(n)[i] != '\n' {
      assert IsDigit(Digits(n)[i]);
    }
  }

  lemma TimesLineNoNewline(c: Cue)
    ensures NoNewline(TimesLine(c))
  {
    ConvertedShape(c.startTime);
    ConvertedShape(c.endTime);
    ArrowJoinNoNewline(ConvertTimeToString(c.startTime), ConvertTimeToString(c.endTime));
  }

  lemma ArrowJoinNoNewline(a: string, b: string)
    requires forall i :: 0 <= i < |a| ==> IsTimecodeChar(a[i])
    requires forall i :: 0 <= i < |b| ==> IsTimecodeChar(b[i])
    ensures NoNewline(a + " --> " + b)
  {
    var t := a + " --> " + b;
    forall i | 0 <= i < |t| ensures t[i] != '\n' {
      if i < |a| {
        assert t[i] == a[i];
      } else if i >= |a| + 5 {
        assert t[i] == b[i - |a| - 5];
      } else {
        assert t[i] == " --> "[i - |a|];
      }
    }
  }

  /** All lines of a list of blocks are free of line breaks. */
  ghost predicate LinesNoNewline(ls: seq<string>) {
    forall k :: 0 <= k < |ls| ==> NoNewline(ls[k])
  }

  lemma DocumentLinesNoNewline(cues: seq<Cue>, first: nat)
    requires WellFormedCues(cues)
    ensures LinesNoNewline(DocumentLines(cues, first))
  {
    var bs := Blocks(cues, first);
    forall k | 0 <= k < |bs| ensures LinesNoNewline(bs[k]) {
      BlockLinesNoNewline(first + k, cues[k]);
    }
    ConcatNoNewline(bs);
  }

  lemma BlockLinesNoNewline(number: nat, c: Cue)
    requires WellFormedText(c.text)
    ensures LinesNoNewline(BlockLines(number, c))
  {
    TextLinesShape(c.text);
    DigitsNoNewline(number);
    TimesLineNoNewline(c);
    BlockNoNewline(Digits(number), TimesLine(c), TextLines(c.text));
  }

  lemma BlockNoNewline(index: string, times: string, tl: seq<string>)
    requires NoNewline(index) && NoNewline(times)
    requires forall k :: 0 <= k < |tl| ==> NoNewline(tl[k])
    ensures LinesNoNewline([index, times] + tl + [""])
  {
    var ls := [index, times] + tl + [""];
    forall k | 0 <= k < |ls| ensures NoNewline(ls[k]) {
      if 2 <= k < 2 + |tl| {
        assert ls[k] == tl[k - 2];
      }
    }
  }

  lemma {:induction false} ConcatNoNewline(bs: seq<seq<string>>)
    requires forall k :: 0 <= k < |bs| ==> LinesNoNewline(bs[k])
    ensures LinesNoNewline(Concat(bs))
  {
    if bs != [] {
      ConcatNoNewline(bs[1..]);
      var b, t := bs[0], Concat(bs[1..]);
      assert Concat(bs) == b + t;
      assert LinesNoNewline(b);
      forall k | 0 <= k < |b + t| ensures NoNewline((b + t)[k]) {
        if k >= |b| {
          assert (b + t)[k] == t[k - |b|];
        } else {
          assert (b + t)[k] == b[k];
        }
      }
    }
  }

  // ---------------------------------------------------------------------
  // Whole documents.

  /** Round trip: a document written in the block form parses back to
      exactly its cues, in order, one per block. */
  lemma ParseRenderedDocument(cues: seq<Cue>)
    requires WellFormedCues(cues)
    ensures ParseDocument(RenderDocument(cues)) == Some(cues)
  {
    var ls := DocumentLines(cues, 1) + [""];
    DocumentLinesNoNewline(cues, 1);
    forall k | 0 <= k < |ls| ensures NoNewline(ls[k]) {
      if k < |ls| - 1 {
        assert ls[k] == DocumentLines(cues, 1)[k];
      }
    }
    SplitJoin(ls);
    ScanBlocks(cues, 1, [""], []);
    assert [] + cues == cues;
    assert [""][1..] == [];
  }

  /** A text of spaces, tabs and line breaks only, the empty text among
      them, is a document with no cues. */
  lemma BlankDocument(s: string)
    requires forall i :: 0 <= i < |s| ==> s[i] == ' ' || s[i] == '\t' || s[i] == '\n'
    ensures ParseDocument(s) == Some([])
  {
    SplitBlank(s);
    ScanBlankLines(SplitLines(s), []);
  }

  /** The lines of such a text are blank. */
  lemma {:induction false} SplitBlank(s: string)
    requires forall i :: 0 <= i < |s| ==> s[i] == ' ' || s[i] == '\t' || s[i] == '\n'
    ensures forall k :: 0 <= k < |SplitLines(s)| ==> IsBlank(SplitLines(s)[k])
    decreases |s|
  {
    if s != [] {
      SplitBlank(s[1..]);
      var rest := SplitLines(s[1..]);
      if s[0] != '\n' {
        var first := [s[0]] + rest[0];
        assert IsBlank(rest[0]);
        assert forall i :: 1 <= i < |first| ==> first[i] == rest[0][i - 1];
      }
    }
  }

  /** Blank lines are skipped between blocks, so only blank lines read as
      no cues. */
  lemma {:induction false} ScanBlankLines(lines: seq<string>, items: seq<Cue>)
    requires forall k :: 0 <= k < |lines| ==> IsBlank(lines[k])
    ensures ScanIndex(lines, items) == Some(items)
    decreases |lines|
  {
    if lines != [] {
      assert IsBlank(lines[0]);
      assert Chomp(lines[0]) == lines[0];
      ScanBlankLines(lines[1..], items);
    }
  }

  lemma AppendAssoc<T>(a: seq<T>, b: seq<T>, c: seq<T>)
    ensures a + b + c == a + (b + c)
  {
  }

  /** All or nothing: well-formed blocks followed by a number line whose
      next line is not a times line make the whole document fail, however
      many good cues came before. */
  lemma MalformedTimesLineFailsDocument(cues: seq<Cue>, index: string, bad: string, rest: seq<string>)
    requires WellFormedCues(cues)
    requires IsIndexLine(Chomp(index))
    requires ParseTimesLine(Chomp(bad)).None?
    ensures ScanIndex(DocumentLines(cues, 1) + [index, bad] + rest, []) == None
  {
    ScanBlocks(cues, 1, [index, bad] + rest, []);
    AppendAssoc(DocumentLines(cues, 1), [index, bad], rest);
    MalformedTimesLineFails(index, bad, rest, [] + cues);
  }

  /** A number line followed by a line that is not a times line fails the
      scan at the start of a block. */
  lemma MalformedTimesLineFails(index: string, bad: string, rest: seq<string>, items: seq<Cue>)
    requires IsIndexLine(Chomp(index))
    requires ParseTimesLine(Chomp(bad)).None?
    ensures ScanIndex([index, bad] + rest, items) == None
  {
    assert [index, bad] + rest == [index] + ([bad] + rest);
    ScanIndexLine(index, [bad] + rest, items);
    assert ([bad] + rest)[0] == bad;
  }

  /** A line that is neither blank nor a number where a block should start
      also fails the whole document. */
  lemma StrayLineFailsDocument(cues: seq<Cue>, stray: string, rest: seq<string>)
    requires WellFormedCues(cues)
    requires !IsBlank(Chomp(stray)) && !IsIndexLine(Chomp(stray))
    ensures ScanIndex(DocumentLines(cues, 1) + [stray] + rest, []) == None
  {
    ScanBlocks(cues, 1, [stray] + rest, []);
    AppendAssoc(DocumentLines(cues, 1), [stray], rest);
    assert ([stray] + rest)[0] == stray;
  }

  /** A number line as the last line of the text (the times line is
      missing) fails the whole document. */
  lemma TruncatedBlockFailsDocument(cues: seq<Cue>, index: string)
    requires WellFormedCues(cues)
    requires IsIndexLine(Chomp(index))
    ensures ScanIndex(DocumentLines(cues, 1) + [index], []) == None
  {
    ScanBlocks(cues, 1, [index], []);
    ScanIndexLine(index, [], [] + cues);
    assert [index] + [] == [index];
  }

  // ---------------------------------------------------------------------
  // The same failures stated over the document text.

  /** Well-formed blocks followed by further lines without line breaks
      are the lines of the text they are joined into. */
  lemma DocumentThenLines(cues: seq<Cue>, extra: seq<string>)
    requires WellFormedCues(cues) && extra != [] && LinesNoNewline(extra)
    ensures SplitLines(JoinLines(DocumentLines(cues, 1) + extra)) == DocumentLines(cues, 1) + extra
  {
    var ls := DocumentLines(cues, 1) + extra;
    DocumentLinesNoNewline(cues, 1);
    forall k | 0 <= k < |ls| ensures NoNewline(ls[k]) {
      if k < |DocumentLines(cues, 1)| {
        assert ls[k] == DocumentLines(cues, 1)[k];
      } else {
        assert ls[k] == extra[k - |DocumentLines(cues, 1)|];
      }
    }
    SplitJoin(ls);
  }

  /** The text of good blocks, a number line and a line that is not a
      times line does not parse. */
  lemma MalformedTimesLineFailsText(cues: seq<Cue>, index: string, bad: string, rest: seq<string>)
    requires WellFormedCues(cues)
    requires IsIndexLine(Chomp(index)) && NoNewline(index)
    requires ParseTimesLine(Chomp(bad)).None? && NoNewline(bad)
    requires LinesNoNewline(rest)
    ensures ParseDocument(JoinLines(DocumentLines(cues, 1) + [index, bad] + rest)) == None
  {
    AppendAssoc(DocumentLines(cues, 1), [index, bad], rest);
    DocumentThenLines(cues, [index, bad] + rest);
    MalformedTimesLineFailsDocument(cues, index, bad, rest);
  }

  /** The text of good blocks followed by a stray line does not parse. */
  lemma StrayLineFailsText(cues: seq<Cue>, stray: string, rest: seq<string>)
    requires WellFormedCues(cues)
    requires !IsBlank(Chomp(stray)) && !IsIndexLine(Chomp(stray)) && NoNewline(stray)
    requires LinesNoNewline(rest)
    ensures ParseDocument(JoinLines(DocumentLines(cues, 1) + [stray] + rest)) == None
  {
    AppendAssoc(DocumentLines(cues, 1), [stray], rest);
    DocumentThenLines(cues, [stray] + rest);
    StrayLineFailsDocument(cues, stray, rest);
  }

  /** The text of good blocks ending in a lone number line does not parse. */
  lemma TruncatedBlockFailsText(cues: seq<Cue>, index: string)
    requires WellFormedCues(cues)
    requires IsIndexLine(Chomp(index)) && NoNewline(index)
    ensures ParseDocument(JoinLines(DocumentLines(cues, 1) + [index])) == None
  {
    DocumentThenLines(cues, [index]);
    TruncatedBlockFailsDocument(cues, index);
  }
}
