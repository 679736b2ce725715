/** The `SubRipItem` cue and the `SubRip` document that holds them: the
    parser filling the document from text, the time strings of a cue and
    the lookups over the cue sequence. */
module SubRip {
  import opened Wrappers
  import opened Decimal
  import opened Timecode
  import opened Lines
  import opened SubRipFormat

  /** `needle` occurs in `hay` at some position. */
  predicate IsSubstring(needle: string, hay: string) {
    exists i :: 0 <= i <= |hay| && needle <= hay[i..]
  }

  /** A left-to-right search for `needle`: a prefix here, or further on. */
  function Occurs(needle: string, hay: string): bool
    decreases |hay|
  {
    needle <= hay || (hay != [] && Occurs(needle, hay[1..]))
  }

  lemma {:induction false} OccursIsSubstring(needle: string, hay: string)
    ensures Occurs(needle, hay) <==> IsSubstring(needle, hay)
    decreases |hay|
  {
    if needle <= hay {
      assert hay[0..] == hay;
    } else if hay != [] {
      var tail := hay[1..];
      OccursIsSubstring(needle, tail);
      if IsSubstring(needle, tail) {
        var i :| 0 <= i <= |tail| && needle <= tail[i..];
        assert hay[i + 1..] == tail[i..];
      }
      if IsSubstring(needle, hay) {
        var i :| 0 <= i <= |hay| && needle <= hay[i..];
        if i > 0 {
          assert tail[i - 1..] == hay[i..];
        }
      }
    }
  }

  /** One cue. Its fields are set by the parser and may be changed by
      callers through the `startTime`, `endTime` and `text` properties. */
  class SubRipItem {
    var startTime: nat
    var endTime: nat
    var text: string

    constructor (startTime: nat, endTime: nat, text: string)
      ensures this.startTime == startTime && this.endTime == endTime && this.text == text
    {
      this.startTime := startTime;
      this.endTime := endTime;
      this.text := text;
    }

    /** The cue this item holds now. */
    function AsCue(): Cue
      reads this
    {
      Cue(startTime, endTime, text)
    }

    /** `startTimeString`: the start time as a timecode, which the
        document parser reads back as the same time. */
    function StartTimeString(): (r: string)
      reads this
      ensures IsTimecodeShape(r)
      ensures |r| == 12 <==> startTime < 100 * 3600000
      ensures ParseTimecode(r) == Some((startTime, |r|))
    {
      ConvertedShape(startTime);
      TimecodeLength(startTime);
      ParseConvertedTime(startTime, "");
      assert ConvertTimeToString(startTime) + "" == ConvertTimeToString(startTime);
      ConvertTimeToString(startTime)
    }

    /** `endTimeString`: the end time as a timecode. */
    function EndTimeString(): (r: string)
      reads this
      ensures IsTimecodeShape(r)
      ensures |r| == 12 <==> endTime < 100 * 3600000
      ensures ParseTimecode(r) == Some((endTime, |r|))
    {
      ConvertedShape(endTime);
      TimecodeLength(endTime);
      ParseConvertedTime(endTime, "");
      assert ConvertTimeToString(endTime) + "" == ConvertTimeToString(endTime);
      ConvertTimeToString(endTime)
    }

    /** `startTimeInSeconds`: the whole seconds of the start time. */
    function StartTimeInSeconds(): (r: nat)
      reads this
      ensures r * 1000 <= startTime < r * 1000 + 1000
    {
      InSeconds(startTime)
    }

    /** `endTimeInSeconds`: the whole seconds of the end time. */
    function EndTimeInSeconds(): (r: nat)
      reads this
      ensures r * 1000 <= endTime < r * 1000 + 1000
    {
      InSeconds(endTime)
    }

    /** `containsString:`: whether `str` occurs in the cue's text. */
    function ContainsString(str: string): (r: bool)
      reads this
      ensures r <==> IsSubstring(str, text)
    {
      OccursIsSubstring(str, text);
      Occurs(str, text)
    }
  }

  /** The cues held by `items`, in order. */
  function CuesOf(items: seq<SubRipItem>): (cues: seq<Cue>)
    reads items
    ensures |cues| == |items|
  {
    seq(|items|, k requires 0 <= k < |items| reads items => items[k].AsCue())
  }

  /** The cues of two runs of items are the cues of each, in order. */
  lemma CuesOfAppend(a: seq<SubRipItem>, b: seq<SubRipItem>)
    ensures CuesOf(a + b) == CuesOf(a) + CuesOf(b)
  {
  }

  // ---------------------------------------------------------------------
  // The text of all cues, in order, and the span each cue takes in it.

  /** The texts of `cues` run together. */
  function AllText(cues: seq<Cue>): string {
    if cues == [] then [] else AllText(cues[..|cues| - 1]) + cues[|cues| - 1].text
  }

  /** The sum of the lengths of the cue texts. */
  function TextLength(cues: seq<Cue>): nat {
    if cues == [] then 0 else TextLength(cues[..|cues| - 1]) + |cues[|cues| - 1].text|
  }

  lemma {:induction false} TextLengthOfAllText(cues: seq<Cue>)
    ensures TextLength(cues) == |AllText(cues)|
  {
    if cues != [] {
      TextLengthOfAllText(cues[..|cues| - 1]);
    }
  }

  lemma {:induction false} AllTextAppend(a: seq<Cue>, b: seq<Cue>)
    ensures AllText(a + b) == AllText(a) + AllText(b)
    decreases |b|
  {
    if b == [] {
      assert a + b == a;
    } else {
      var b' := b[..|b| - 1];
      assert (a + b)[..|a + b| - 1] == a + b';
      assert (a + b)[|a + b| - 1] == b[|b| - 1];
      AllTextAppend(a, b');
      assert AllText(b) == AllText(b') + b[|b| - 1].text;
    }
  }

  /** Where the text of cue `i` starts in `AllText(cues)`. */
  function SpanStart(cues: seq<Cue>, i: nat): nat
    requires i <= |cues|
  {
    |AllText(cues[..i])|
  }

  /** The character at a global offset inside the span of cue `i` is the
      character of that cue's text at the offset relative to the span. */
  lemma CharacterInSpan(cues: seq<Cue>, i: nat, idx: nat)
    requires i < |cues| && SpanStart(cues, i) <= idx < SpanStart(cues, i) + |cues[i].text|
    ensures idx < |AllText(cues)|
    ensures AllText(cues)[idx] == cues[i].text[idx - SpanStart(cues, i)]
  {
    assert cues == cues[..i] + [cues[i]] + cues[i + 1..];
    AllTextAppend(cues[..i] + [cues[i]], cues[i + 1..]);
    AllTextAppend(cues[..i], [cues[i]]);
    assert AllText([cues[i]]) == AllText([]) + cues[i].text;
  }

  /** Spans do not overlap: the cue whose span holds an offset is unique. */
  lemma SpanOwnerUnique(cues: seq<Cue>, idx: nat, i: nat, j: nat)
    requires i < |cues| && SpanStart(cues, i) <= idx < SpanStart(cues, i) + |cues[i].text|
    requires j < |cues| && SpanStart(cues, j) <= idx < SpanStart(cues, j) + |cues[j].text|
    ensures i == j
  {
    if i < j {
      SpanAfter(cues, i, j);
    } else if j < i {
      SpanAfter(cues, j, i);
    }
  }

  /** A later span starts no earlier than the end of an earlier one. */
  lemma SpanAfter(cues: seq<Cue>, i: nat, j: nat)
    requires i < j <= |cues|
    ensures SpanStart(cues, i) + |cues[i].text| <= SpanStart(cues, j)
  {
    var pre := cues[..j];
    assert pre == cues[..i + 1] + cues[i + 1..j];
    AllTextAppend(cues[..i + 1], cues[i + 1..j]);
    assert cues[..i + 1][..i] == cues[..i];
  }

  /** The time `t` lies in the cue's interval, both ends included. */
  predicate Shows(c: Cue, t: nat) {
    c.startTime <= t <= c.endTime
  }

  // ---------------------------------------------------------------------

  /** A subtitle document: its cues in the order of the source text. */
  class SubRip {
    var subtitleItems: seq<SubRipItem>

    /** An empty document. */
    constructor ()
      ensures subtitleItems == []
    {
      subtitleItems := [];
    }

    /** The cues of the document as values. */
    function Cues(): (cues: seq<Cue>)
      reads this, subtitleItems
      ensures |cues| == |subtitleItems|
    {
      CuesOf(subtitleItems)
    }

    /** `initWithString:`: a document parsed from `str`, or `nil` when
        `str` is not a SubRip document. */
    static method InitWithString(str: string) returns (doc: SubRip?)
      ensures doc == null <==> ParseDocument(str).None?
      ensures doc != null ==> fresh(doc) && doc.Cues() == ParseDocument(str).value
    {
      doc := new SubRip();
      var ok := doc.PopulateFromString(str);
      if !ok {
        doc := null;
      }
    }

    /** `_populateFromString:`: reads the document line by line, stepping
        through the states number line, times line, text for each block.
        On success one new item per block, in order, is appended to the
        items already held, each a distinct new object; on failure it
        returns false and the items are left as they were. */
    method PopulateFromString(str: string) returns (ok: bool)
      modifies this
      ensures ok <==> ParseDocument(str).Some?
      ensures ok ==> Cues() == old(Cues()) + ParseDocument(str).value
      ensures ok ==> |old(subtitleItems)| <= |subtitleItems| && subtitleItems[..|old(subtitleItems)|] == old(subtitleItems)
      ensures ok ==> forall k :: |old(subtitleItems)| <= k < |subtitleItems| ==> fresh(subtitleItems[k])
      ensures ok ==> forall i, j :: |old(subtitleItems)| <= i < j < |subtitleItems| ==> subtitleItems[i] != subtitleItems[j]
      ensures !ok ==> subtitleItems == old(subtitleItems)
    {
      var lines := SplitLines(str);
      ghost var result := ScanIndex(lines, []);
      var pos := ArrayIndex;
      var pending := Cue(0, 0, "");
      var cues: seq<Cue> := [];
      var rest := lines;
      while rest != []
        invariant Scan(rest, pos, pending, cues) == result
        invariant subtitleItems == old(subtitleItems)
        decreases |rest|
      {
        var line := Chomp(rest[0]);
        var tail := rest[1..];
        assert rest == [rest[0]] + tail;
        match pos {
          case ArrayIndex =>
            if IsIndexLine(line) {
              ScanIndexLine(rest[0], tail, cues);
              pos := Times;
            } else if IsBlank(line) {
              ScanIndexBlank(rest[0], tail, cues);
            } else {
              ScanIndexStray(rest[0], tail, cues);
              return false;
            }
          case Times =>
            match ParseTimesLine(line) {
              case None =>
                ScanTimesBad(rest[0], tail, cues);
                return false;
              case Some((start, end)) =>
                ScanTimesLine(rest[0], tail, cues, start, end);
                pending := Cue(start, end, "");
                pos := Text;
            }
          case Text =>
            if IsBlank(line) {
              ScanTextBlank(rest[0], tail, pending, cues);
              cues := cues + [pending];
              pos := ArrayIndex;
            } else {
              ScanTextLine(rest[0], tail, pending, cues);
              pending := pending.(text := AppendTextLine(pending.text, line));
            }
        }
        rest := tail;
      }
      if pos == Times {
        return false;
      }
      if pos == Text {
        cues := cues + [pending];
      }
      AppendItems(cues);
      ok := true;
    }

    /** Appends one new item per cue, in order, to the items held. */
    method AppendItems(cues: seq<Cue>)
      modifies this
      ensures Cues() == old(Cues()) + cues
      ensures |old(subtitleItems)| <= |subtitleItems| && subtitleItems[..|old(subtitleItems)|] == old(subtitleItems)
      ensures forall k :: |old(subtitleItems)| <= k < |subtitleItems| ==> fresh(subtitleItems[k])
      ensures forall i, j :: |old(subtitleItems)| <= i < j < |subtitleItems| ==> subtitleItems[i] != subtitleItems[j]
    {
      var items := NewItems(cues);
      CuesOfAppend(subtitleItems, items);
      assert forall k :: 0 <= k < |items| ==> items[k] in items;
      assert (subtitleItems + items)[..|subtitleItems|] == subtitleItems;
      subtitleItems := subtitleItems + items;
    }

    /** `totalCharacterCountOfText`: the number of characters of all cue
        texts, counted afresh from the current items. */
    method TotalCharacterCountOfText() returns (n: nat)
      ensures n == |AllText(Cues())|
    {
      ghost var cues := Cues();
      n := 0;
      var i := 0;
      while i < |subtitleItems|
        invariant 0 <= i <= |subtitleItems|
        invariant n == TextLength(cues[..i])
      {
        assert cues[..i + 1][..i] == cues[..i];
        n := n + |subtitleItems[i].text|;
        i := i + 1;
      }
      assert cues[..i] == cues;
      TextLengthOfAllText(cues);
    }

    /** `indexOfSubRipItemWithStartTime:`: the first item showing at time
        `t`, or `None` (`NSNotFound`) when no item does. */
    method IndexOfSubRipItemWithStartTime(t: nat) returns (r: Option<nat>)
      ensures r.Some? ==> r.value < |Cues()| && Shows(Cues()[r.value], t)
      ensures r.Some? ==> forall j :: 0 <= j < r.value ==> !Shows(Cues()[j], t)
      ensures r.None? ==> forall j :: 0 <= j < |Cues()| ==> !Shows(Cues()[j], t)
    {
      var i := 0;
      while i < |subtitleItems|
        invariant 0 <= i <= |subtitleItems|
        invariant forall j :: 0 <= j < i ==> !Shows(Cues()[j], t)
      {
        var item := subtitleItems[i];
        if item.startTime <= t <= item.endTime {
          return Some(i);
        }
        i := i + 1;
      }
      return None;
    }

    /** `indexOfSubRipItemWithCharacterIndex:`: the item whose span in the
        run-together text holds the offset `idx`, or `None` (`NSNotFound`)
        when `idx` is past the end of that text. */
    method IndexOfSubRipItemWithCharacterIndex(idx: nat) returns (r: Option<nat>)
      ensures r.Some? <==> idx < |AllText(Cues())|
      ensures r.Some? ==> r.value < |Cues()|
      ensures r.Some? ==> SpanStart(Cues(), r.value) <= idx < SpanStart(Cues(), r.value) + |Cues()[r.value].text|
    {
      ghost var cues := Cues();
      var start := 0;
      var i := 0;
      while i < |subtitleItems|
        invariant 0 <= i <= |subtitleItems|
        invariant start == TextLength(cues[..i]) && start <= idx
      {
        assert cues[..i + 1][..i] == cues[..i];
        var len := |subtitleItems[i].text|;
        if idx < start + len {
          TextLengthOfAllText(cues[..i]);
          CharacterInSpan(cues, i, idx);
          return Some(i);
        }
        start := start + len;
        i := i + 1;
      }
      assert cues[..i] == cues;
      TextLengthOfAllText(cues);
      return None;
    }
  }

  /** One new item per cue, in order, no two the same object. */
  method NewItems(cues: seq<Cue>) returns (items: seq<SubRipItem>)
    ensures CuesOf(items) == cues
    ensures forall item :: item in items ==> fresh(item)
    ensures forall i, j :: 0 <= i < j < |items| ==> items[i] != items[j]
  {
    items := [];
    var i := 0;
    while i < |cues|
      invariant 0 <= i <= |cues|
      invariant CuesOf(items) == cues[..i]
      invariant forall item :: item in items ==> fresh(item)
      invariant forall i, j :: 0 <= i < j < |items| ==> items[i] != items[j]
    {
      var item := new SubRipItem(cues[i].startTime, cues[i].endTime, cues[i].text);
      items := items + [item];
      i := i + 1;
    }
    assert cues[..i] == cues;
  }
}
