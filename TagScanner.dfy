/** `scanSRTTag:attributes:isOpen:isClosed:`, the `NSScanner` category that
    recognises one SubRip style tag at the scan location:

      '<' ['/'] name { spaces key '=' value } [spaces] ['/'] '>'

    where a name or key is a run of letters, digits, `_` and `-`, and a
    value is either `"` text without quotes `"` or a run of characters
    other than spaces, quotes, `<`, `>`, `/` and `=`. */
module TagScanner {
  import opened Wrappers

  /** The tag names the style conversion singles out. */
  const ItalicTagName: string := "i"
  const BoldTagName: string := "b"
  const UnderlineTagName: string := "u"
  const FontTagName: string := "font"

  predicate IsSpace(c: char) {
    c == ' ' || c == '\t' || c == '\n' || c == '\r'
  }

  predicate IsNameChar(c: char) {
    ('a' <= c <= 'z') || ('A' <= c <= 'Z') || ('0' <= c <= '9') || c == '_' || c == '-'
  }

  predicate IsValueChar(c: char) {
    !IsSpace(c) && c != '"' && c != '<' && c != '>' && c != '/' && c != '='
  }

  predicate IsNotQuote(c: char) {
    c != '"'
  }

  /** The runs of characters the grammar reads. */
  datatype CharClass = Space | NameChar | NotQuote | ValueChar

  predicate InClass(cls: CharClass, c: char) {
    match cls
    case Space => IsSpace(c)
    case NameChar => IsNameChar(c)
    case NotQuote => IsNotQuote(c)
    case ValueChar => IsValueChar(c)
  }

  /** What one recognised tag reports. */
  datatype Tag = Tag(name: string, attributes: map<string, string>, isOpen: bool, isClosed: bool)

  /** The end of the run of characters of class `cls` from `i` on. */
  function RunEnd(s: string, i: nat, cls: CharClass): (j: nat)
    requires i <= |s|
    ensures i <= j <= |s|
    ensures j > i ==> InClass(cls, s[j - 1])
    ensures j < |s| ==> !InClass(cls, s[j])
    decreases |s| - i
  {
    if i < |s| && InClass(cls, s[i]) then RunEnd(s, i + 1, cls) else i
  }

  /** Every character of the run is in the class. */
  lemma {:induction false} RunEndInClass(s: string, i: nat, cls: CharClass)
    requires i <= |s|
    ensures forall k :: i <= k < RunEnd(s, i, cls) ==> InClass(cls, s[k])
    decreases |s| - i
  {
    if i < |s| && InClass(cls, s[i]) {
      RunEndInClass(s, i + 1, cls);
    }
  }

  /** An attribute value at `k`: quoted or bare. Gives the value and the
      position after it. */
  function ValueAt(s: string, k: nat): (r: Option<(string, nat)>)
    requires k <= |s|
    ensures r.Some? ==> k < r.value.1 <= |s| && s[r.value.1 - 1] != '/'
  {
    if k < |s| && s[k] == '"' then
      var q := RunEnd(s, k + 1, NotQuote);
      if q == |s| then None else Some((s[k + 1..q], q + 1))
    else
      var u := RunEnd(s, k, ValueChar);
      if u == k then None else Some((s[k..u], u))
  }

  /** One step of the attribute list at `k`: after the spaces, either a
      `key=value` pair, the place where the list stops, or a malformed
      attribute. */
  datatype AttributeStep = Pair(key: string, value: string, next: nat) | Stop(at: nat) | Malformed

  function AttributeStepAt(s: string, k: nat): (r: AttributeStep)
    requires k <= |s|
    ensures r.Pair? ==> k < r.next <= |s| && s[r.next - 1] != '/'
    ensures r.Stop? ==> k <= r.at <= |s| && (r.at < |s| ==> !IsSpace(s[r.at])) && (r.at > k ==> s[r.at - 1] != '/')
  {
    var w := RunEnd(s, k, Space);
    if w > k && w < |s| && IsNameChar(s[w]) then PairAt(s, w) else Stop(w)
  }

  /** A `key=value` pair at `w`, or `Malformed`. */
  function PairAt(s: string, w: nat): (r: AttributeStep)
    requires w <= |s|
    ensures r.Pair? || r.Malformed?
    ensures r.Pair? ==> w < r.next <= |s| && s[r.next - 1] != '/'
  {
    var e := RunEnd(s, w, NameChar);
    if e == |s| || s[e] != '=' then Malformed
    else
      match ValueAt(s, e + 1)
      case None => Malformed
      case Some((v, m)) => Pair(s[w..e], v, m)
  }

  /** The attributes from `k` on, added to `acc` (a key written twice keeps
      its last value). Gives the map and the position after the trailing
      spaces. */
  function AttributesFrom(s: string, k: nat, acc: map<string, string>): (r: Option<(map<string, string>, nat)>)
    requires k <= |s|
    ensures r.Some? ==> k <= r.value.1 <= |s|
    ensures r.Some? && r.value.1 < |s| ==> !IsSpace(s[r.value.1])
    ensures r.Some? && r.value.1 > k ==> s[r.value.1 - 1] != '/'
    decreases |s| - k
  {
    match AttributeStepAt(s, k)
    case Malformed => None
    case Stop(w) => Some((acc, w))
    case Pair(key, value, m) => AttributesFrom(s, m, acc[key := value])
  }

  /** The tag at `i`, and the position just after its `>`; `None` when the
      text at `i` is not a complete tag. A tag beginning `</` is a closing
      tag; one ending `/>` is both opened and closed. */
  function TagAt(s: string, i: nat): (r: Option<(Tag, nat)>)
    requires i <= |s|
    ensures r.Some? ==> i + 3 <= r.value.1 <= |s| && s[i] == '<' && s[r.value.1 - 1] == '>'
    ensures r.Some? ==> |r.value.0.name| > 0 && (r.value.0.isOpen || r.value.0.isClosed)
  {
    if i >= |s| || s[i] != '<' then None
    else
      var closing := i + 1 < |s| && s[i + 1] == '/';
      var n0 := if closing then i + 2 else i + 1;
      var n := RunEnd(s, n0, NameChar);
      if n == n0 then None
      else
        match AttributesFrom(s, n, map[])
        case None => None
        case Some((attributes, p)) =>
          match TagClose(s, p)
          case None => None
          case Some((selfClosing, q)) =>
            Some((Tag(s[n0..n], attributes, !closing, closing || selfClosing), q))
  }

  /** A recognised tag is open unless it begins `</`, and closed when it
      begins `</` or ends `/>`. */
  lemma TagFlags(s: string, i: nat)
    requires i <= |s| && TagAt(s, i).Some?
    ensures var (tag, end) := TagAt(s, i).value;
            && (tag.isOpen <==> s[i + 1] != '/')
            && (tag.isClosed <==> s[i + 1] == '/' || s[end - 2] == '/')
  {
    var closing := i + 1 < |s| && s[i + 1] == '/';
    var n0 := if closing then i + 2 else i + 1;
    var n := RunEnd(s, n0, NameChar);
    var p := AttributesFrom(s, n, map[]).value.1;
    if p == n {
      assert IsNameChar(s[n - 1]);
    }
  }

  /** The end of a tag at `p`: an optional `/` then `>`. Tells whether the
      `/` was there and gives the position after the `>`. */
  function TagClose(s: string, p: nat): (r: Option<(bool, nat)>)
    requires p <= |s|
    ensures r.Some? ==> r.value.1 == (if r.value.0 then p + 2 else p + 1) <= |s|
    ensures r.Some? ==> s[r.value.1 - 1] == '>' && (r.value.0 ==> s[p] == '/')
  {
    var selfClosing := p < |s| && s[p] == '/';
    var q := if selfClosing then p + 1 else p;
    if q >= |s| || s[q] != '>' then None else Some((selfClosing, q + 1))
  }

  // ---------------------------------------------------------------------
  // The written form of a tag, the inverse used in the round-trip lemma.

  /** Attributes in the order written: the map they make, later keys
      overriding earlier ones. */
  function Collect(acc: map<string, string>, pairs: seq<(string, string)>): map<string, string>
    decreases |pairs|
  {
    if pairs == [] then acc else Collect(acc[pairs[0].0 := pairs[0].1], pairs[1..])
  }

  /** `Collect` holds the keys of `acc` and the keys written, and no others. */
  lemma {:induction false} CollectKeys(acc: map<string, string>, pairs: seq<(string, string)>, key: string)
    ensures key in Collect(acc, pairs) <==> key in acc || exists j :: 0 <= j < |pairs| && pairs[j].0 == key
    decreases |pairs|
  {
    if pairs != [] {
      var tail := pairs[1..];
      CollectKeys(acc[pairs[0].0 := pairs[0].1], tail, key);
      if exists j :: 0 <= j < |tail| && tail[j].0 == key {
        var j :| 0 <= j < |tail| && tail[j].0 == key;
        assert pairs[j + 1].0 == key;
      }
      if exists j :: 0 <= j < |pairs| && pairs[j].0 == key {
        var j :| 0 <= j < |pairs| && pairs[j].0 == key;
        if j > 0 {
          assert tail[j - 1].0 == key;
        }
      }
    }
  }

  /** A key never written keeps the value it had in `acc`. */
  lemma {:induction false} CollectUnwritten(acc: map<string, string>, pairs: seq<(string, string)>, key: string)
    requires forall j :: 0 <= j < |pairs| ==> pairs[j].0 != key
    ensures key in Collect(acc, pairs) <==> key in acc
    ensures key in acc ==> Collect(acc, pairs)[key] == acc[key]
    decreases |pairs|
  {
    if pairs != [] {
      assert pairs[0].0 != key;
      forall j | 0 <= j < |pairs[1..]| ensures pairs[1..][j].0 != key {
        assert pairs[1..][j] == pairs[j + 1];
      }
      CollectUnwritten(acc[pairs[0].0 := pairs[0].1], pairs[1..], key);
    }
  }

  /** A written key holds the value of its last pair. */
  lemma {:induction false} CollectLast(acc: map<string, string>, pairs: seq<(string, string)>, j: nat)
    requires j < |pairs|
    requires forall k :: j < k < |pairs| ==> pairs[k].0 != pairs[j].0
    ensures pairs[j].0 in Collect(acc, pairs) && Collect(acc, pairs)[pairs[j].0] == pairs[j].1
    decreases |pairs|
  {
    var tail := pairs[1..];
    var acc' := acc[pairs[0].0 := pairs[0].1];
    if j == 0 {
      forall k | 0 <= k < |tail| ensures tail[k].0 != pairs[0].0 {
        assert tail[k] == pairs[k + 1];
      }
      CollectUnwritten(acc', tail, pairs[0].0);
    } else {
      assert tail[j - 1] == pairs[j];
      forall k | j - 1 < k < |tail| ensures tail[k].0 != tail[j - 1].0 {
        assert tail[k] == pairs[k + 1];
      }
      CollectLast(acc', tail, j - 1);
    }
  }

  predicate AllNameChars(t: string) {
    forall k :: 0 <= k < |t| ==> IsNameChar(t[k])
  }

  /** A name or key the grammar can carry. */
  predicate IsName(t: string) {
    |t| > 0 && AllNameChars(t)
  }

  /** White space, possibly none. */
  predicate AllSpaces(t: string) {
    forall k :: 0 <= k < |t| ==> IsSpace(t[k])
  }

  /** One attribute as written: the white space before it, its key, its
      value and whether the value is in double quotes. */
  datatype Attribute = Attribute(gap: string, key: string, value: string, quoted: bool)

  /** An attribute the grammar reads back as written: white space before
      it, a name key, and either a quoted value without a double quote or a
      non-empty bare value of value characters. */
  predicate Writable(a: Attribute) {
    |a.gap| > 0 && AllSpaces(a.gap) && IsName(a.key) && WritableValue(a.value, a.quoted)
  }

  /** A quoted value holds no double quote; a bare value is a non-empty
      run of value characters. */
  predicate WritableValue(value: string, quoted: bool) {
    if quoted then forall k :: 0 <= k < |value| ==> IsNotQuote(value[k])
    else |value| > 0 && forall k :: 0 <= k < |value| ==> IsValueChar(value[k])
  }

  predicate WritableAttributes(attrs: seq<Attribute>) {
    forall j :: 0 <= j < |attrs| ==> Writable(attrs[j])
  }

  /** The key-value pairs of written attributes, in order. */
  function Pairs(attrs: seq<Attribute>): (pairs: seq<(string, string)>)
    ensures |pairs| == |attrs|
    ensures forall j :: 0 <= j < |attrs| ==> pairs[j] == (attrs[j].key, attrs[j].value)
    decreases |attrs|
  {
    if attrs == [] then [] else [(attrs[0].key, attrs[0].value)] + Pairs(attrs[1..])
  }

  /** The value as written: `"value"` or `value`. */
  function ValueText(a: Attribute): string {
    if a.quoted then "\"" + a.value + "\"" else a.value
  }

  /** One attribute written as `gap key="value"` or `gap key=value`. */
  function AttributeText(a: Attribute): string {
    a.gap + a.key + "=" + ValueText(a)
  }

  function AttributesText(attrs: seq<Attribute>): string
    decreases |attrs|
  {
    if attrs == [] then "" else AttributeText(attrs[0]) + AttributesText(attrs[1..])
  }

  /** The start of a written tag: `<name` or `</name`. */
  function TagOpenText(closing: bool, name: string): string {
    (if closing then "</" else "<") + name
  }

  /** The end of a written tag: white space, then `>` or `/>`. */
  function TagCloseText(trail: string, selfClosing: bool): string {
    trail + (if selfClosing then "/>" else ">")
  }

  /** A tag written out: `<name ...>`, `</name>` or `<name .../>`, with the
      white space `trail` before the close. */
  function TagText(closing: bool, name: string, attrs: seq<Attribute>, trail: string, selfClosing: bool): string {
    TagOpenText(closing, name) + AttributesText(attrs) + TagCloseText(trail, selfClosing)
  }

  // ---------------------------------------------------------------------
  // Reading written tags back.

  /** `t` is written in `s` at `k`, character by character. */
  predicate WrittenAt(s: string, k: nat, t: string)
    decreases |t|
  {
    k + |t| <= |s| && (|t| == 0 || (s[k] == t[0] && WrittenAt(s, k + 1, t[1..])))
  }

  /** `WrittenAt` is the slice of `s` at `k` being `t`. */
  lemma {:induction false} WrittenAtSlice(s: string, k: nat, t: string)
    ensures WrittenAt(s, k, t) <==> k + |t| <= |s| && s[k..k + |t|] == t
    decreases |t|
  {
    if |t| > 0 && k + |t| <= |s| {
      WrittenAtSlice(s, k + 1, t[1..]);
      if s[k..k + |t|] == t {
        assert s[k + 1..k + |t|] == s[k..k + |t|][1..];
      }
      if s[k] == t[0] && s[k + 1..k + 1 + |t[1..]|] == t[1..] {
        assert s[k..k + |t|] == [s[k]] + s[k + 1..k + |t|];
      }
    }
  }

  lemma {:induction false} RunEndStops(s: string, i: nat, j: nat, cls: CharClass)
    requires i <= j < |s|
    requires forall k :: i <= k < j ==> InClass(cls, s[k])
    requires !InClass(cls, s[j])
    ensures RunEnd(s, i, cls) == j
    decreases j - i
  {
    if i < j {
      RunEndStops(s, i + 1, j, cls);
    }
  }

  /** A text is written at the front of anything it starts. */
  lemma WrittenPrefix(t: string, rest: string)
    ensures WrittenAt(t + rest, 0, t)
  {
    WrittenAtSlice(t + rest, 0, t);
    assert (t + rest)[0..|t|] == t;
  }

  lemma {:induction false} WrittenSplit(s: string, k: nat, a: string, b: string)
    requires WrittenAt(s, k, a + b)
    ensures WrittenAt(s, k, a) && WrittenAt(s, k + |a|, b)
    decreases |a|
  {
    if a == [] {
      assert a + b == b;
    } else {
      assert (a + b)[1..] == a[1..] + b;
      WrittenSplit(s, k + 1, a[1..], b);
    }
  }

  lemma {:induction false} WrittenIndex(s: string, k: nat, t: string, j: nat)
    requires WrittenAt(s, k, t) && j < |t|
    ensures k + j < |s| && s[k + j] == t[j]
    decreases j
  {
    if j > 0 {
      WrittenIndex(s, k + 1, t[1..], j - 1);
    }
  }

  lemma WrittenRun(s: string, k: nat, t: string, cls: CharClass)
    requires WrittenAt(s, k, t)
    requires forall j :: 0 <= j < |t| ==> InClass(cls, t[j])
    ensures forall j :: k <= j < k + |t| ==> InClass(cls, s[j])
  {
    forall j | k <= j < k + |t| ensures InClass(cls, s[j]) {
      WrittenIndex(s, k, t, j - k);
    }
  }

  /** The pieces of an attribute written at `k`: its white space, its key
      at `w`, the `=` at `e` and its value text. */
  lemma AttributePieces(s: string, k: nat, a: Attribute, w: nat, e: nat)
    requires WrittenAt(s, k, AttributeText(a))
    requires w == k + |a.gap| && e == w + |a.key|
    ensures WrittenAt(s, k, a.gap) && WrittenAt(s, w, a.key) && e < |s| && s[e] == '='
    ensures WrittenAt(s, e + 1, ValueText(a))
  {
    WrittenSplit(s, k, a.gap + a.key + "=", ValueText(a));
    WrittenSplit(s, k, a.gap + a.key, "=");
    WrittenSplit(s, k, a.gap, a.key);
    WrittenIndex(s, e, "=", 0);
  }

  /** Reading goes on after a pair with that pair added. */
  lemma StepPair(s: string, k: nat, acc: map<string, string>)
    requires k <= |s| && AttributeStepAt(s, k).Pair?
    ensures var st := AttributeStepAt(s, k);
            AttributesFrom(s, k, acc) == AttributesFrom(s, st.next, acc[st.key := st.value])
  {
  }

  /** A quoted value is read up to its closing quote. */
  lemma ReadQuoted(s: string, j: nat, value: string)
    requires j < |s| && s[j] == '"' && WrittenAt(s, j + 1, value)
    requires forall k :: 0 <= k < |value| ==> IsNotQuote(value[k])
    requires j + 1 + |value| < |s| && s[j + 1 + |value|] == '"'
    ensures ValueAt(s, j) == Some((value, j + 2 + |value|))
  {
    WrittenRun(s, j + 1, value, NotQuote);
    RunEndStops(s, j + 1, j + 1 + |value|, NotQuote);
    WrittenAtSlice(s, j + 1, value);
  }

  /** A bare value, followed by a character that cannot continue it, is
      read up to that character. */
  lemma ReadBare(s: string, j: nat, value: string, m: nat)
    requires |value| > 0 && forall k :: 0 <= k < |value| ==> IsValueChar(value[k])
    requires WrittenAt(s, j, value) && m == j + |value| && m < |s| && !IsValueChar(s[m])
    ensures ValueAt(s, j) == Some((value, m))
  {
    WrittenIndex(s, j, value, 0);
    WrittenRun(s, j, value, ValueChar);
    RunEndStops(s, j, m, ValueChar);
    WrittenAtSlice(s, j, value);
  }

  /** A written value, quoted or bare, is read back as the value. */
  lemma ReadValue(s: string, j: nat, a: Attribute, m: nat)
    requires Writable(a) && WrittenAt(s, j, ValueText(a))
    requires m == j + |ValueText(a)| && m < |s| && !IsValueChar(s[m])
    ensures ValueAt(s, j) == Some((a.value, m))
  {
    if a.quoted {
      WrittenSplit(s, j, "\"" + a.value, "\"");
      WrittenSplit(s, j, "\"", a.value);
      WrittenIndex(s, j, "\"", 0);
      WrittenIndex(s, j + 1 + |a.value|, "\"", 0);
      ReadQuoted(s, j, a.value);
    } else {
      ReadBare(s, j, a.value, m);
    }
  }

  /** White space written at `k` and followed by a non-space is one run. */
  lemma ReadSpaces(s: string, k: nat, t: string, w: nat)
    requires WrittenAt(s, k, t) && AllSpaces(t)
    requires w == k + |t| && w < |s| && !IsSpace(s[w])
    ensures RunEnd(s, k, Space) == w
  {
    WrittenRun(s, k, t, Space);
    RunEndStops(s, k, w, Space);
  }

  /** The attribute step from its pieces: white space up to `w`, a key run
      up to `e`, `=` and a value. */
  lemma AttributeStepOf(s: string, k: nat, w: nat, e: nat, value: string, m: nat)
    requires k < w < e < |s| && RunEnd(s, k, Space) == w && IsNameChar(s[w])
    requires RunEnd(s, w, NameChar) == e && s[e] == '='
    requires ValueAt(s, e + 1) == Some((value, m))
    ensures AttributeStepAt(s, k) == Pair(s[w..e], value, m)
  {
    PairOf(s, w, e, value, m);
  }

  /** A key run up to `e`, `=` and a value make a pair. */
  lemma PairOf(s: string, w: nat, e: nat, value: string, m: nat)
    requires w < e < |s| && RunEnd(s, w, NameChar) == e && s[e] == '='
    requires ValueAt(s, e + 1) == Some((value, m))
    ensures PairAt(s, w) == Pair(s[w..e], value, m)
  {
  }

  /** A written name followed by a non-name character is read as that name. */
  lemma ReadName(s: string, n0: nat, name: string)
    requires WrittenAt(s, n0, name) && AllNameChars(name)
    requires n0 + |name| < |s| && !IsNameChar(s[n0 + |name|])
    ensures RunEnd(s, n0, NameChar) == n0 + |name| && s[n0..n0 + |name|] == name
  {
    WrittenRun(s, n0, name, NameChar);
    RunEndStops(s, n0, n0 + |name|, NameChar);
    WrittenAtSlice(s, n0, name);
  }

  /** One written attribute, followed by a character that cannot continue
      its value, is read back as its key and value. */
  lemma {:induction false} ReadAttribute(s: string, k: nat, a: Attribute, m: nat)
    requires WrittenAt(s, k, AttributeText(a)) && Writable(a)
    requires m == k + |AttributeText(a)| && m < |s| && !IsValueChar(s[m])
    ensures AttributeStepAt(s, k) == Pair(a.key, a.value, m)
  {
    var w := k + |a.gap|;
    var e := w + |a.key|;
    AttributePieces(s, k, a, w, e);
    WrittenIndex(s, w, a.key, 0);
    ReadSpaces(s, k, a.gap, w);
    ReadName(s, w, a.key);
    ReadValue(s, e + 1, a, m);
    AttributeStepOf(s, k, w, e, a.value, m);
  }

  /** Reading goes on after one written attribute with it added. */
  lemma ReadAttributeOn(s: string, k: nat, a: Attribute, acc: map<string, string>, m: nat)
    requires WrittenAt(s, k, AttributeText(a)) && Writable(a)
    requires m == k + |AttributeText(a)| && m < |s| && !IsValueChar(s[m])
    ensures AttributesFrom(s, k, acc) == AttributesFrom(s, m, acc[a.key := a.value])
  {
    ReadAttribute(s, k, a, m);
    StepPair(s, k, acc);
  }

  /** The written form of a non-empty attribute list splits into its first
      attribute and the rest. */
  lemma {:induction false} AttributesSplit(s: string, k: nat, attrs: seq<Attribute>)
    requires attrs != []
    requires WrittenAt(s, k, AttributesText(attrs)) && WritableAttributes(attrs)
    ensures WrittenAt(s, k, AttributeText(attrs[0])) && Writable(attrs[0])
    ensures WrittenAt(s, k + |AttributeText(attrs[0])|, AttributesText(attrs[1..]))
    ensures |AttributesText(attrs)| == |AttributeText(attrs[0])| + |AttributesText(attrs[1..])|
    ensures WritableAttributes(attrs[1..])
  {
    WrittenSplit(s, k, AttributeText(attrs[0]), AttributesText(attrs[1..]));
    forall j | 0 <= j < |attrs[1..]| ensures attrs[1..][j] == attrs[j + 1] { }
  }

  /** Written attributes begin with white space. */
  lemma AttributesTextStart(attrs: seq<Attribute>)
    requires attrs != [] && Writable(attrs[0])
    ensures |AttributesText(attrs)| > 0 && IsSpace(AttributesText(attrs)[0])
  {
    var a := attrs[0];
    assert AttributesText(attrs) == a.gap + (a.key + "=" + ValueText(a) + AttributesText(attrs[1..]));
  }

  /** What follows a written attribute list is white space or the close of
      the tag, so neither a value nor a name goes on there. */
  lemma {:induction false} AfterAttributes(s: string, m: nat, attrs: seq<Attribute>, trail: string, p: nat)
    requires WrittenAt(s, m, AttributesText(attrs)) && WritableAttributes(attrs)
    requires WrittenAt(s, m + |AttributesText(attrs)|, trail) && AllSpaces(trail)
    requires p == m + |AttributesText(attrs)| + |trail| && p < |s| && (s[p] == '/' || s[p] == '>')
    ensures m < |s| && !IsValueChar(s[m]) && !IsNameChar(s[m])
  {
    if attrs != [] {
      AttributesTextStart(attrs);
      SpaceFirst(s, m, AttributesText(attrs));
    } else {
      assert AttributesText(attrs) == "";
      if trail != [] {
        SpaceFirst(s, m, trail);
      }
    }
    StopsValue(s[m]);
  }

  /** White space, `/` and `>` neither continue a value nor a name. */
  lemma StopsValue(c: char)
    requires IsSpace(c) || c == '/' || c == '>'
    ensures !IsValueChar(c) && !IsNameChar(c)
  {
  }

  /** A text written at `m` that starts with white space puts white space
      at `m`. */
  lemma SpaceFirst(s: string, m: nat, t: string)
    requires WrittenAt(s, m, t) && |t| > 0 && IsSpace(t[0])
    ensures m < |s| && IsSpace(s[m])
  {
    WrittenIndex(s, m, t, 0);
  }

  /** The pairs of a non-empty attribute list: its first pair, then the
      pairs of the rest. */
  lemma PairsCons(attrs: seq<Attribute>)
    requires attrs != []
    ensures Pairs(attrs) != [] && Pairs(attrs)[0] == (attrs[0].key, attrs[0].value)
    ensures Pairs(attrs)[1..] == Pairs(attrs[1..])
  {
  }

  /** Reading one attribute and then the rest reads the whole list. */
  lemma ReadPairThenRest(s: string, k: nat, attrs: seq<Attribute>, acc: map<string, string>, m: nat, end: nat)
    requires attrs != [] && k <= m <= |s|
    requires Pairs(attrs) != [] && Pairs(attrs)[0] == (attrs[0].key, attrs[0].value)
    requires Pairs(attrs)[1..] == Pairs(attrs[1..])
    requires AttributesFrom(s, k, acc) == AttributesFrom(s, m, acc[attrs[0].key := attrs[0].value])
    ensures AttributesFrom(s, m, acc[attrs[0].key := attrs[0].value]) == Some((Collect(acc[attrs[0].key := attrs[0].value], Pairs(attrs[1..])), end))
            ==> AttributesFrom(s, k, acc) == Some((Collect(acc, Pairs(attrs)), end))
  {
  }

  /** One step of reading a written attribute list: the rest is written
      after the first attribute, and reading it back there gives the
      whole list read back here. */
  lemma {:induction false} ReadAttributesCons(s: string, k: nat, attrs: seq<Attribute>, trail: string, acc: map<string, string>, m: nat, e: nat, p: nat)
    requires attrs != []
    requires WrittenAt(s, k, AttributesText(attrs)) && WritableAttributes(attrs)
    requires m == k + |AttributeText(attrs[0])| && e == k + |AttributesText(attrs)|
    requires WrittenAt(s, e, trail) && AllSpaces(trail)
    requires p == e + |trail| && p < |s| && (s[p] == '/' || s[p] == '>')
    ensures m <= |s| && WrittenAt(s, m, AttributesText(attrs[1..])) && WritableAttributes(attrs[1..])
    ensures e == m + |AttributesText(attrs[1..])|
    ensures AttributesFrom(s, m, acc[attrs[0].key := attrs[0].value]) == Some((Collect(acc[attrs[0].key := attrs[0].value], Pairs(attrs[1..])), p))
            ==> AttributesFrom(s, k, acc) == Some((Collect(acc, Pairs(attrs)), p))
  {
    AttributesSplit(s, k, attrs);
    AfterAttributes(s, m, attrs[1..], trail, p);
    ReadAttributeOn(s, k, attrs[0], acc, m);
    PairsCons(attrs);
    ReadPairThenRest(s, k, attrs, acc, m, p);
  }

  /** White space before the close of a tag ends the attribute list. */
  lemma ReadTrail(s: string, k: nat, trail: string, acc: map<string, string>, p: nat)
    requires WrittenAt(s, k, trail) && AllSpaces(trail)
    requires p == k + |trail| && p < |s| && (s[p] == '/' || s[p] == '>')
    ensures AttributesFrom(s, k, acc) == Some((acc, p))
  {
    ReadSpaces(s, k, trail, p);
    assert AttributeStepAt(s, k) == Stop(p);
  }

  /** Written attributes, then white space `trail` and the close of the
      tag, are read back as the map they make, stopping at the close. */
  lemma {:induction false} ReadAttributes(s: string, k: nat, attrs: seq<Attribute>, trail: string, acc: map<string, string>, e: nat, p: nat)
    requires WrittenAt(s, k, AttributesText(attrs)) && WritableAttributes(attrs)
    requires e == k + |AttributesText(attrs)| && WrittenAt(s, e, trail) && AllSpaces(trail)
    requires p == e + |trail| && p < |s| && (s[p] == '/' || s[p] == '>')
    ensures AttributesFrom(s, k, acc) == Some((Collect(acc, Pairs(attrs)), p))
    decreases |attrs|
  {
    if attrs == [] {
      ReadTrail(s, k, trail, acc, p);
    } else {
      var m := k + |AttributeText(attrs[0])|;
      ReadAttributesCons(s, k, attrs, trail, acc, m, e, p);
      ReadAttributes(s, m, attrs[1..], trail, acc[attrs[0].key := attrs[0].value], e, p);
    }
  }

  /** The pieces of a written tag at `i`, as characters of `s`: `<` and
      the `/` of a closing tag, the name at `n0`, the attributes up to `e`,
      the white space up to `p`, then the close. */
  ghost predicate PiecesAt(s: string, i: nat, closing: bool, name: string, attrs: seq<Attribute>, trail: string, selfClosing: bool, n0: nat, e: nat, p: nat) {
    && n0 == (if closing then i + 2 else i + 1) && e == n0 + |name| + |AttributesText(attrs)| && p == e + |trail|
    && i < |s| && s[i] == '<' && (closing ==> i + 1 < |s| && s[i + 1] == '/')
    && WrittenAt(s, n0, name) && WrittenAt(s, n0 + |name|, AttributesText(attrs)) && WrittenAt(s, e, trail)
    && (if selfClosing then p + 1 else p) < |s| && (selfClosing ==> s[p] == '/')
    && s[if selfClosing then p + 1 else p] == '>'
  }

  /** A written tag is its pieces, and its length ends it after the close. */
  lemma {:induction false} TagPieces(s: string, i: nat, closing: bool, name: string, attrs: seq<Attribute>, trail: string, selfClosing: bool, n0: nat, e: nat, p: nat)
    requires WrittenAt(s, i, TagText(closing, name, attrs, trail, selfClosing))
    requires n0 == (if closing then i + 2 else i + 1) && e == n0 + |name| + |AttributesText(attrs)| && p == e + |trail|
    ensures PiecesAt(s, i, closing, name, attrs, trail, selfClosing, n0, e, p)
    ensures i + |TagText(closing, name, attrs, trail, selfClosing)| == (if selfClosing then p + 2 else p + 1)
  {
    var o := TagOpenText(closing, name);
    var a := AttributesText(attrs);
    WrittenSplit(s, i, o + a, TagCloseText(trail, selfClosing));
    WrittenSplit(s, i, o, a);
    TagHead(s, i, closing, name, n0);
    TagEnd(s, e, trail, selfClosing, p);
  }

  /** The start of a written tag: `<`, the `/` of a closing tag, the name. */
  lemma TagHead(s: string, i: nat, closing: bool, name: string, n0: nat)
    requires WrittenAt(s, i, TagOpenText(closing, name))
    requires n0 == if closing then i + 2 else i + 1
    ensures i < |s| && s[i] == '<' && (closing ==> i + 1 < |s| && s[i + 1] == '/')
    ensures WrittenAt(s, n0, name) && i + |TagOpenText(closing, name)| == n0 + |name|
  {
    var c := if closing then "</" else "<";
    WrittenSplit(s, i, c, name);
    WrittenIndex(s, i, c, 0);
    if closing {
      WrittenIndex(s, i, c, 1);
    }
  }

  /** The end of a written tag: white space, the `/` of a self-closing tag
      and `>`. */
  lemma TagEnd(s: string, e: nat, trail: string, selfClosing: bool, p: nat)
    requires WrittenAt(s, e, TagCloseText(trail, selfClosing)) && p == e + |trail|
    ensures WrittenAt(s, e, trail)
    ensures (if selfClosing then p + 1 else p) < |s| && (selfClosing ==> s[p] == '/')
    ensures s[if selfClosing then p + 1 else p] == '>'
    ensures e + |TagCloseText(trail, selfClosing)| == if selfClosing then p + 2 else p + 1
  {
    var z := if selfClosing then "/>" else ">";
    WrittenSplit(s, e, trail, z);
    WrittenIndex(s, p, z, 0);
    if selfClosing {
      WrittenIndex(s, p, z, 1);
    }
  }

  /** The recogniser's result from its pieces: the `<`, the name run, the
      attributes and the close. */
  lemma TagAtOf(s: string, i: nat, closing: bool, n: nat, attributes: map<string, string>, p: nat, selfClosing: bool, q: nat)
    requires i < |s| && s[i] == '<'
    requires closing <==> i + 1 < |s| && s[i + 1] == '/'
    requires var n0 := if closing then i + 2 else i + 1;
             n0 < n <= |s| && RunEnd(s, n0, NameChar) == n
    requires AttributesFrom(s, n, map[]) == Some((attributes, p))
    requires TagClose(s, p) == Some((selfClosing, q))
    ensures var n0 := if closing then i + 2 else i + 1;
            TagAt(s, i) == Some((Tag(s[n0..n], attributes, !closing, closing || selfClosing), q))
  {
  }

  /** The name of a written tag is read up to the attributes or the close. */
  lemma {:induction false} ReadTagName(s: string, i: nat, closing: bool, name: string, attrs: seq<Attribute>, trail: string, n0: nat, e: nat, p: nat)
    requires IsName(name) && WritableAttributes(attrs) && AllSpaces(trail) && n0 == if closing then i + 2 else i + 1
    requires i < |s| && (closing ==> i + 1 < |s| && s[i + 1] == '/')
    requires WrittenAt(s, n0, name) && WrittenAt(s, n0 + |name|, AttributesText(attrs)) && WrittenAt(s, e, trail)
    requires e == n0 + |name| + |AttributesText(attrs)| && p == e + |trail| && p < |s| && (s[p] == '/' || s[p] == '>')
    ensures closing <==> i + 1 < |s| && s[i + 1] == '/'
    ensures n0 < n0 + |name| <= |s| && RunEnd(s, n0, NameChar) == n0 + |name| && s[n0..n0 + |name|] == name
  {
    WrittenIndex(s, n0, name, 0);
    AfterAttributes(s, n0 + |name|, attrs, trail, p);
    ReadName(s, n0, name);
  }

  /** The close of a written tag. */
  lemma ReadTagClose(s: string, p: nat, selfClosing: bool)
    requires var q := if selfClosing then p + 1 else p;
             q < |s| && (selfClosing ==> s[p] == '/') && s[q] == '>'
    ensures TagClose(s, p) == Some((selfClosing, if selfClosing then p + 2 else p + 1))
  {
  }

  /** A tag whose pieces are written in place is recognised. */
  lemma {:induction false} ReadTagParts(s: string, i: nat, closing: bool, name: string, attrs: seq<Attribute>, trail: string, selfClosing: bool, n0: nat, e: nat, p: nat, end: nat)
    requires IsName(name) && WritableAttributes(attrs) && AllSpaces(trail) && end == if selfClosing then p + 2 else p + 1
    requires PiecesAt(s, i, closing, name, attrs, trail, selfClosing, n0, e, p)
    ensures TagAt(s, i) == Some((Tag(name, Collect(map[], Pairs(attrs)), !closing, closing || selfClosing), end))
  {
    var n := n0 + |name|;
    assert s[p] == '/' || s[p] == '>';
    ReadTagClose(s, p, selfClosing);
    ReadTagName(s, i, closing, name, attrs, trail, n0, e, p);
    ReadAttributes(s, n, attrs, trail, map[], e, p);
    TagAtOf(s, i, closing, n, Collect(map[], Pairs(attrs)), p, selfClosing, end);
  }

  /** Round trip: a written tag, whatever the white space between its
      attributes and before its close and whether its values are quoted or
      bare, is read back as its name, the map of its attributes and its
      flags, and the scan ends right after it. */
  lemma {:induction false} ReadTag(s: string, i: nat, closing: bool, name: string, attrs: seq<Attribute>, trail: string, selfClosing: bool)
    requires WrittenAt(s, i, TagText(closing, name, attrs, trail, selfClosing))
    requires IsName(name) && WritableAttributes(attrs) && AllSpaces(trail)
    ensures TagAt(s, i) == Some((Tag(name, Collect(map[], Pairs(attrs)), !closing, closing || selfClosing),
                                 i + |TagText(closing, name, attrs, trail, selfClosing)|))
  {
    var n0 := if closing then i + 2 else i + 1;
    var e := n0 + |name| + |AttributesText(attrs)|;
    ReadTagFrom(s, i, closing, name, attrs, trail, selfClosing, n0, e, e + |trail|);
  }

  /** `ReadTag`, given where the name, the attributes and the trailing
      white space end. */
  lemma {:induction false} ReadTagFrom(s: string, i: nat, closing: bool, name: string, attrs: seq<Attribute>, trail: string, selfClosing: bool, n0: nat, e: nat, p: nat)
    requires WrittenAt(s, i, TagText(closing, name, attrs, trail, selfClosing))
    requires IsName(name) && WritableAttributes(attrs) && AllSpaces(trail)
    requires n0 == (if closing then i + 2 else i + 1) && e == n0 + |name| + |AttributesText(attrs)| && p == e + |trail|
    ensures TagAt(s, i) == Some((Tag(name, Collect(map[], Pairs(attrs)), !closing, closing || selfClosing),
                                 i + |TagText(closing, name, attrs, trail, selfClosing)|))
  {
    TagPieces(s, i, closing, name, attrs, trail, selfClosing, n0, e, p);
    ReadTagParts(s, i, closing, name, attrs, trail, selfClosing, n0, e, p, i + |TagText(closing, name, attrs, trail, selfClosing)|);
  }

  /** A tag with one attribute and a bare value, `<name key=value>`,
      written at `i` reads as an open tag mapping the key to the value,
      and the scan ends right after it. */
  lemma {:induction false} ReadBareAttribute(s: string, i: nat, name: string, key: string, value: string)
    requires IsName(name) && IsName(key) && WritableValue(value, false)
    requires WrittenAt(s, i, "<" + name + " " + key + "=" + value + ">")
    ensures TagAt(s, i) == Some((Tag(name, map[key := value], true, false), i + |name| + |key| + |value| + 4))
  {
    var a := Attribute(" ", key, value, false);
    BareAttributeText(name, a);
    OnePair(a);
    ReadTag(s, i, false, name, [a], "", false);
  }

  /** The map of a single attribute. */
  lemma OnePair(a: Attribute)
    ensures Collect(map[], Pairs([a])) == map[a.key := a.value]
  {
    assert Pairs([a]) == [(a.key, a.value)];
    assert [(a.key, a.value)][1..] == [];
  }

  /** A written tag followed by anything is read back from the start. */
  lemma {:induction false} ReadTagPrefix(closing: bool, name: string, attrs: seq<Attribute>, trail: string, selfClosing: bool, rest: string)
    requires IsName(name) && WritableAttributes(attrs) && AllSpaces(trail)
    ensures var t := TagText(closing, name, attrs, trail, selfClosing);
            TagAt(t + rest, 0) == Some((Tag(name, Collect(map[], Pairs(attrs)), !closing, closing || selfClosing), |t|))
  {
    var t := TagText(closing, name, attrs, trail, selfClosing);
    WrittenPrefix(t, rest);
    ReadTag(t + rest, 0, closing, name, attrs, trail, selfClosing);
  }

  /** The written form of a tag with one attribute and no trailing white
      space. */
  lemma BareAttributeText(name: string, a: Attribute)
    requires !a.quoted
    ensures TagText(false, name, [a], "", false) == "<" + name + a.gap + a.key + "=" + a.value + ">"
  {
    assert AttributesText([a]) == AttributeText(a) by {
      assert [a][1..] == [];
    }
    assert TagCloseText("", false) == ">";
  }

  /** The written form of a tag without attributes. */
  lemma BareTagText(closing: bool, name: string)
    ensures TagText(closing, name, [], "", false) == (if closing then "</" else "<") + name + ">"
  {
    assert AttributesText([]) == "";
    assert TagCloseText("", false) == ">";
  }

  /** The four style tag names are names the grammar reads. */
  lemma StyleTagNames(name: string)
    requires name in {ItalicTagName, BoldTagName, UnderlineTagName, FontTagName}
    ensures IsName(name)
  {
  }

  /** A tag written without attributes, followed by anything, is read back. */
  lemma {:induction false} ReadBareTag(closing: bool, name: string, rest: string)
    requires IsName(name)
    ensures var t := TagText(closing, name, [], "", false);
            TagAt(t + rest, 0) == Some((Tag(name, map[], !closing, closing), |t|))
  {
    ReadTagPrefix(closing, name, [], "", false, rest);
  }

  /** The four style tags are recognised in their opening and closing
      forms, under the name written. */
  lemma StyleTagsRecognised(name: string, s: string)
    requires name in {ItalicTagName, BoldTagName, UnderlineTagName, FontTagName}
    ensures TagAt("<" + name + ">" + s, 0) == Some((Tag(name, map[], true, false), |name| + 2))
    ensures TagAt("</" + name + ">" + s, 0) == Some((Tag(name, map[], false, true), |name| + 3))
  {
    StyleTagNames(name);
    BareTagText(false, name);
    BareTagText(true, name);
    ReadBareTag(false, name, s);
    ReadBareTag(true, name, s);
  }

  // ---------------------------------------------------------------------
  // Every recognised tag is a written tag.

  /** The attribute an attribute step reads at `k`: the white space up to
      its key, the key, its value and whether that value was quoted. */
  function AttributeOf(s: string, k: nat): (a: Attribute)
    requires k <= |s| && AttributeStepAt(s, k).Pair?
  {
    var w := RunEnd(s, k, Space);
    var e := RunEnd(s, w, NameChar);
    Attribute(s[k..w], s[w..e], AttributeStepAt(s, k).value, e + 1 < |s| && s[e + 1] == '"')
  }

  /** The attributes the attribute list at `k` reads, in order, and where
      the last of them ends (before any trailing white space); `None`
      where the list is malformed. */
  function AttributeList(s: string, k: nat): (r: Option<(seq<Attribute>, nat)>)
    requires k <= |s|
    ensures r.Some? ==> k <= r.value.1 <= |s|
    decreases |s| - k
  {
    match AttributeStepAt(s, k)
    case Malformed => None
    case Stop(_) => Some(([], k))
    case Pair(_, _, m) =>
      match AttributeList(s, m)
      case None => None
      case Some((rest, e)) => Some(([AttributeOf(s, k)] + rest, e))
  }

  /** `t` and then `u` written at `k` is `t + u` written at `k`. */
  lemma {:induction false} WrittenConcat(s: string, k: nat, t: string, u: string)
    requires WrittenAt(s, k, t) && WrittenAt(s, k + |t|, u)
    ensures WrittenAt(s, k, t + u)
    decreases |t|
  {
    if t == [] {
      assert t + u == u;
    } else {
      WrittenConcat(s, k + 1, t[1..], u);
      assert (t + u)[1..] == t[1..] + u;
    }
  }

  /** A slice of `s` is written where it was taken. */
  lemma WrittenSlice(s: string, a: nat, b: nat)
    requires a <= b <= |s|
    ensures WrittenAt(s, a, s[a..b])
  {
    WrittenAtSlice(s, a, s[a..b]);
  }

  /** A character of `s` is written where it is. */
  lemma WrittenChar(s: string, k: nat, c: char)
    requires k < |s| && s[k] == c
    ensures WrittenAt(s, k, [c])
  {
    assert [c][1..] == [];
  }

  /** What a quoted value is made of: `"` at `j`, text without quotes up
      to `q`, `"` at `q`. */
  lemma QuotedPieces(s: string, j: nat, q: nat)
    requires j < |s| && s[j] == '"' && ValueAt(s, j).Some? && q == RunEnd(s, j + 1, NotQuote)
    ensures q < |s| && s[q] == '"' && ValueAt(s, j).value == (s[j + 1..q], q + 1)
  {
  }

  /** What a bare value is made of: a non-empty run of value characters
      from `j` to `u`. */
  lemma BarePieces(s: string, j: nat, u: nat)
    requires j <= |s| && !(j < |s| && s[j] == '"') && ValueAt(s, j).Some? && u == RunEnd(s, j, ValueChar)
    ensures j < u && ValueAt(s, j).value == (s[j..u], u)
  {
  }

  /** `"value"` as it stands in `s` from `j` to `q`. */
  lemma QuotedWritten(s: string, j: nat, q: nat, a: Attribute)
    requires j < q < |s| && s[j] == '"' && s[q] == '"' && a.quoted && a.value == s[j + 1..q]
    ensures WrittenAt(s, j, ValueText(a)) && |ValueText(a)| == q + 1 - j
  {
    WrittenChar(s, j, '"');
    WrittenSlice(s, j + 1, q);
    WrittenChar(s, q, '"');
    WrittenConcat(s, j, "\"", a.value);
    WrittenConcat(s, j, "\"" + a.value, "\"");
  }

  /** The value a `ValueAt` reads is written as `ValueText` of the
      attribute carrying it, and that attribute's value is writable. */
  lemma ValueWritten(s: string, j: nat, a: Attribute)
    requires j <= |s| && ValueAt(s, j).Some?
    requires a.value == ValueAt(s, j).value.0 && a.quoted == (j < |s| && s[j] == '"')
    ensures WritableValue(a.value, a.quoted)
    ensures WrittenAt(s, j, ValueText(a)) && ValueAt(s, j).value.1 == j + |ValueText(a)|
  {
    if a.quoted {
      QuotedValueWritten(s, j, a);
    } else {
      BareValueWritten(s, j, a);
    }
  }

  /** `ValueWritten` for a quoted value. */
  lemma QuotedValueWritten(s: string, j: nat, a: Attribute)
    requires j < |s| && s[j] == '"' && ValueAt(s, j).Some?
    requires a.value == ValueAt(s, j).value.0 && a.quoted
    ensures WritableValue(a.value, a.quoted)
    ensures WrittenAt(s, j, ValueText(a)) && ValueAt(s, j).value.1 == j + |ValueText(a)|
  {
    var q := RunEnd(s, j + 1, NotQuote);
    QuotedPieces(s, j, q);
    RunSliceInClass(s, j + 1, q, NotQuote);
    QuotedWritten(s, j, q, a);
  }

  /** `ValueWritten` for a bare value. */
  lemma BareValueWritten(s: string, j: nat, a: Attribute)
    requires j <= |s| && !(j < |s| && s[j] == '"') && ValueAt(s, j).Some?
    requires a.value == ValueAt(s, j).value.0 && !a.quoted
    ensures WritableValue(a.value, a.quoted)
    ensures WrittenAt(s, j, ValueText(a)) && ValueAt(s, j).value.1 == j + |ValueText(a)|
  {
    var u := RunEnd(s, j, ValueChar);
    BarePieces(s, j, u);
    RunSliceInClass(s, j, u, ValueChar);
    WrittenSlice(s, j, u);
  }

  /** Every character of the slice a run covers is in the class. */
  lemma RunSliceInClass(s: string, i: nat, j: nat, cls: CharClass)
    requires i <= |s| && j == RunEnd(s, i, cls)
    ensures forall k :: 0 <= k < |s[i..j]| ==> InClass(cls, s[i..j][k])
  {
    RunEndInClass(s, i, cls);
  }

  /** `gap key=` then a written value, as it stands in `s` from `k`. */
  lemma AttributeTextWritten(s: string, k: nat, w: nat, e: nat, a: Attribute)
    requires k <= w <= e < |s| && s[e] == '=' && a.gap == s[k..w] && a.key == s[w..e]
    requires WrittenAt(s, e + 1, ValueText(a))
    ensures WrittenAt(s, k, AttributeText(a)) && |AttributeText(a)| == e + 1 - k + |ValueText(a)|
  {
    WrittenSlice(s, k, w);
    WrittenSlice(s, w, e);
    WrittenChar(s, e, '=');
    WrittenConcat(s, k, a.gap, a.key);
    WrittenConcat(s, k, a.gap + a.key, "=");
    WrittenConcat(s, k, a.gap + a.key + "=", ValueText(a));
  }

  /** The pair an attribute step reads at `k` is written there as
      `AttributeOf(s, k)`, which is writable. */
  lemma AttributeStepWritten(s: string, k: nat)
    requires k <= |s| && AttributeStepAt(s, k).Pair?
    ensures var a := AttributeOf(s, k);
            && Writable(a) && WrittenAt(s, k, AttributeText(a))
            && a.key == AttributeStepAt(s, k).key && a.value == AttributeStepAt(s, k).value
            && AttributeStepAt(s, k).next == k + |AttributeText(a)|
  {
    var a := AttributeOf(s, k);
    var w := RunEnd(s, k, Space);
    var e := RunEnd(s, w, NameChar);
    AttributeStepPieces(s, k, w, e);
    RunEndInClass(s, k, Space);
    RunEndInClass(s, w, NameChar);
    ValueWritten(s, e + 1, a);
    AttributeTextWritten(s, k, w, e, a);
  }

  /** What a pair step is made of: white space up to `w`, a key run up to
      `e`, then `=` and a value. */
  lemma AttributeStepPieces(s: string, k: nat, w: nat, e: nat)
    requires k <= |s| && AttributeStepAt(s, k).Pair?
    requires w == RunEnd(s, k, Space) && e == RunEnd(s, w, NameChar)
    ensures k < w < e < |s| && s[e] == '='
    ensures ValueAt(s, e + 1) == Some((AttributeStepAt(s, k).value, AttributeStepAt(s, k).next))
    ensures AttributeStepAt(s, k).key == s[w..e]
  {
    assert w > k && w < |s| && IsNameChar(s[w]);
  }

  /** Reading an attribute list is reading `AttributeList` and collecting
      its pairs; the list stops after the white space that follows its
      last attribute. */
  lemma {:induction false} AttributesFromList(s: string, k: nat, acc: map<string, string>)
    requires k <= |s| && AttributesFrom(s, k, acc).Some?
    ensures AttributeList(s, k).Some?
    ensures var (attrs, e) := AttributeList(s, k).value;
            AttributesFrom(s, k, acc).value == (Collect(acc, Pairs(attrs)), RunEnd(s, e, Space))
    decreases |s| - k
  {
    var st := AttributeStepAt(s, k);
    if st.Pair? {
      AttributeStepWritten(s, k);
      AttributesFromList(s, st.next, acc[st.key := st.value]);
      var (rest, e) := AttributeList(s, st.next).value;
      var attrs := [AttributeOf(s, k)] + rest;
      assert attrs[1..] == rest;
      assert Pairs(attrs)[1..] == Pairs(rest);
    } else {
      assert Pairs([]) == [];
    }
  }

  /** The attributes `AttributeList` reads are writable and written where
      they were read, ending where the list says. */
  lemma {:induction false} AttributeListWritten(s: string, k: nat)
    requires k <= |s| && AttributeList(s, k).Some?
    ensures var (attrs, e) := AttributeList(s, k).value;
            && WritableAttributes(attrs) && WrittenAt(s, k, AttributesText(attrs))
            && e == k + |AttributesText(attrs)| <= |s|
    decreases |s| - k
  {
    var st := AttributeStepAt(s, k);
    var (attrs, e) := AttributeList(s, k).value;
    if st.Pair? {
      var a := AttributeOf(s, k);
      AttributeStepWritten(s, k);
      AttributeListWritten(s, st.next);
      var rest := AttributeList(s, st.next).value.0;
      AttributesCons(s, k, a, rest, st.next);
    } else {
      assert AttributesText([]) == "";
    }
  }

  /** One written attribute and written attributes after it are the
      list of them written. */
  lemma AttributesCons(s: string, k: nat, a: Attribute, rest: seq<Attribute>, m: nat)
    requires WrittenAt(s, k, AttributeText(a)) && Writable(a) && m == k + |AttributeText(a)|
    requires WrittenAt(s, m, AttributesText(rest)) && WritableAttributes(rest)
    ensures WrittenAt(s, k, AttributesText([a] + rest)) && WritableAttributes([a] + rest)
    ensures |AttributesText([a] + rest)| == |AttributeText(a)| + |AttributesText(rest)|
  {
    var attrs := [a] + rest;
    assert attrs[1..] == rest;
    WrittenConcat(s, k, AttributeText(a), AttributesText(rest));
    forall j | 0 <= j < |attrs| ensures Writable(attrs[j]) {
      if j > 0 {
        assert attrs[j] == rest[j - 1];
      }
    }
  }

  /** What a recognised tag is made of: `<`, the name run from `n0` to
      `n`, the attribute list from `n` and the close at `p`. */
  lemma TagAtPieces(s: string, i: nat, tag: Tag, end: nat, closing: bool, n0: nat, n: nat)
    requires i <= |s| && TagAt(s, i) == Some((tag, end))
    requires closing == (i + 1 < |s| && s[i + 1] == '/') && n0 == (if closing then i + 2 else i + 1)
    requires n == RunEnd(s, n0, NameChar)
    ensures i < |s| && s[i] == '<' && n0 < n <= |s|
    ensures AttributesFrom(s, n, map[]).Some?
    ensures var (attributes, p) := AttributesFrom(s, n, map[]).value;
            && TagClose(s, p).Some?
            && tag == Tag(s[n0..n], attributes, !closing, closing || TagClose(s, p).value.0)
            && end == TagClose(s, p).value.1
  {
  }

  /** The start of a recognised tag is written as `TagOpenText`. */
  lemma OpenWritten(s: string, i: nat, closing: bool, n0: nat, n: nat)
    requires i < |s| && s[i] == '<' && closing == (i + 1 < |s| && s[i + 1] == '/')
    requires n0 == (if closing then i + 2 else i + 1) && n0 <= n <= |s|
    ensures WrittenAt(s, i, TagOpenText(closing, s[n0..n])) && |TagOpenText(closing, s[n0..n])| == n - i
  {
    WrittenChar(s, i, '<');
    if closing {
      WrittenChar(s, i + 1, '/');
      WrittenConcat(s, i, "<", "/");
      assert "<" + "/" == "</";
    }
    WrittenSlice(s, n0, n);
    WrittenConcat(s, i, if closing then "</" else "<", s[n0..n]);
  }

  /** The end of a recognised tag is written as `TagCloseText`. */
  lemma CloseWritten(s: string, e: nat, p: nat)
    requires e <= p <= |s| && TagClose(s, p).Some?
    ensures var (selfClosing, end) := TagClose(s, p).value;
            WrittenAt(s, e, TagCloseText(s[e..p], selfClosing)) && e + |TagCloseText(s[e..p], selfClosing)| == end
  {
    var (selfClosing, end) := TagClose(s, p).value;
    WrittenSlice(s, e, p);
    if selfClosing {
      WrittenChar(s, p, '/');
      WrittenChar(s, p + 1, '>');
      WrittenConcat(s, p, "/", ">");
      assert "/" + ">" == "/>";
      WrittenConcat(s, e, s[e..p], "/>");
    } else {
      WrittenChar(s, p, '>');
      WrittenConcat(s, e, s[e..p], ">");
    }
  }

  /** A tag's three written parts, one after the other, are the tag
      written. */
  lemma TagTextWritten(s: string, i: nat, closing: bool, name: string, attrs: seq<Attribute>, trail: string, selfClosing: bool, n: nat, e: nat)
    requires WrittenAt(s, i, TagOpenText(closing, name)) && n == i + |TagOpenText(closing, name)|
    requires WrittenAt(s, n, AttributesText(attrs)) && e == n + |AttributesText(attrs)|
    requires WrittenAt(s, e, TagCloseText(trail, selfClosing))
    ensures WrittenAt(s, i, TagText(closing, name, attrs, trail, selfClosing))
    ensures |TagText(closing, name, attrs, trail, selfClosing)| == e - i + |TagCloseText(trail, selfClosing)|
  {
    WrittenConcat(s, i, TagOpenText(closing, name), AttributesText(attrs));
    WrittenConcat(s, i, TagOpenText(closing, name) + AttributesText(attrs), TagCloseText(trail, selfClosing));
  }

  /** Converse of `ReadTag`: whatever the recogniser accepts at `i` is a
      written tag, read as that tag's name, the map of its attributes and
      its flags, and the scan ends right after it. So text that is not
      written in the tag grammar is never recognised. */
  lemma TagAtWritten(s: string, i: nat, tag: Tag, end: nat)
    requires i <= |s| && TagAt(s, i) == Some((tag, end))
    ensures exists closing, name, attrs, trail, selfClosing {:trigger TagText(closing, name, attrs, trail, selfClosing)} ::
              && IsName(name) && WritableAttributes(attrs) && AllSpaces(trail)
              && WrittenAt(s, i, TagText(closing, name, attrs, trail, selfClosing))
              && tag == Tag(name, Collect(map[], Pairs(attrs)), !closing, closing || selfClosing)
              && end == i + |TagText(closing, name, attrs, trail, selfClosing)|
  {
    var closing := i + 1 < |s| && s[i + 1] == '/';
    var n0 := if closing then i + 2 else i + 1;
    var n := RunEnd(s, n0, NameChar);
    TagAtPieces(s, i, tag, end, closing, n0, n);
    var p := AttributesFrom(s, n, map[]).value.1;
    var selfClosing := TagClose(s, p).value.0;
    AttributesFromList(s, n, map[]);
    AttributeListWritten(s, n);
    var (attrs, e) := AttributeList(s, n).value;
    var name := s[n0..n];
    var trail := s[e..p];
    NameRun(s, n0, n);
    SpaceRun(s, e, p);
    OpenWritten(s, i, closing, n0, n);
    CloseWritten(s, e, p);
    TagTextWritten(s, i, closing, name, attrs, trail, selfClosing, n, e);
    SomeWrittenTag(s, i, tag, end, closing, name, attrs, trail, selfClosing);
  }

  /** The written tag that witnesses `TagAtWritten`. */
  lemma SomeWrittenTag(s: string, i: nat, tag: Tag, end: nat, closing: bool, name: string, attrs: seq<Attribute>, trail: string, selfClosing: bool)
    requires IsName(name) && WritableAttributes(attrs) && AllSpaces(trail)
    requires WrittenAt(s, i, TagText(closing, name, attrs, trail, selfClosing))
    requires tag == Tag(name, Collect(map[], Pairs(attrs)), !closing, closing || selfClosing)
    requires end == i + |TagText(closing, name, attrs, trail, selfClosing)|
    ensures exists closing, name, attrs, trail, selfClosing {:trigger TagText(closing, name, attrs, trail, selfClosing)} ::
              && IsName(name) && WritableAttributes(attrs) && AllSpaces(trail)
              && WrittenAt(s, i, TagText(closing, name, attrs, trail, selfClosing))
              && tag == Tag(name, Collect(map[], Pairs(attrs)), !closing, closing || selfClosing)
              && end == i + |TagText(closing, name, attrs, trail, selfClosing)|
  {
  }

  /** A non-empty run of name characters is a name. */
  lemma NameRun(s: string, n0: nat, n: nat)
    requires n0 < n <= |s| && n == RunEnd(s, n0, NameChar)
    ensures IsName(s[n0..n])
  {
    RunEndInClass(s, n0, NameChar);
  }

  /** A run of white space is white space. */
  lemma SpaceRun(s: string, e: nat, p: nat)
    requires e <= |s| && p == RunEnd(s, e, Space)
    ensures AllSpaces(s[e..p])
  {
    RunEndInClass(s, e, Space);
  }

  // ---------------------------------------------------------------------

  /** The part of `NSScanner` the tag scanner uses: the text and the scan
      location. */
  class Scanner {
    const str: string
    var scanLocation: nat

    ghost predicate Valid()
      reads this
    {
      scanLocation <= |str|
    }

    constructor (str: string)
      ensures Valid() && this.str == str && scanLocation == 0
    {
      this.str := str;
      scanLocation := 0;
    }

    /** `scanSRTTag:attributes:isOpen:isClosed:`: when a complete tag
        starts at the scan location, reports it and moves the location
        past it; otherwise returns false and leaves the location alone. */
    method ScanSRTTag() returns (found: bool, tagName: string, attributes: map<string, string>, isOpen: bool, isClosed: bool)
      requires Valid()
      modifies this`scanLocation
      ensures Valid()
      ensures found <==> TagAt(str, old(scanLocation)).Some?
      ensures found ==> TagAt(str, old(scanLocation)).value == (Tag(tagName, attributes, isOpen, isClosed), scanLocation)
      ensures !found ==> scanLocation == old(scanLocation)
    {
      found, tagName, attributes, isOpen, isClosed := false, "", map[], false, false;
      var i := scanLocation;
      if i >= |str| || str[i] != '<' {
        return;
      }
      var closing := i + 1 < |str| && str[i + 1] == '/';
      var n0 := if closing then i + 2 else i + 1;
      var n := SkipRun(str, n0, NameChar);
      if n == n0 {
        return;
      }
      var attrs: map<string, string> := map[];
      var k := n;
      var step := ScanAttributeStep(str, k);
      while step.Pair?
        invariant n <= k <= |str|
        invariant step == AttributeStepAt(str, k)
        invariant AttributesFrom(str, k, attrs) == AttributesFrom(str, n, map[])
        invariant scanLocation == old(scanLocation)
        decreases |str| - k
      {
        attrs := attrs[step.key := step.value];
        k := step.next;
        step := ScanAttributeStep(str, k);
      }
      if step.Malformed? {
        return;
      }
      var p := step.at;
      assert AttributesFrom(str, n, map[]) == Some((attrs, p));
      match TagClose(str, p) {
        case None =>
          return;
        case Some((selfClosing, q)) =>
          TagAtOf(str, i, closing, n, attrs, p, selfClosing, q);
          found, tagName, attributes := true, str[n0..n], attrs;
          isOpen, isClosed := !closing, closing || selfClosing;
          scanLocation := q;
      }
    }
  }

  /** Reads an attribute value at `k`. */
  method ScanValue(s: string, k: nat) returns (r: Option<(string, nat)>)
    requires k <= |s|
    ensures r == ValueAt(s, k)
  {
    if k < |s| && s[k] == '"' {
      var q := SkipRun(s, k + 1, NotQuote);
      if q == |s| {
        return None;
      }
      return Some((s[k + 1..q], q + 1));
    }
    var u := SkipRun(s, k, ValueChar);
    if u == k {
      return None;
    }
    return Some((s[k..u], u));
  }

  /** Reads one step of the attribute list at `k`. */
  method ScanAttributeStep(s: string, k: nat) returns (r: AttributeStep)
    requires k <= |s|
    ensures r == AttributeStepAt(s, k)
  {
    var w := SkipRun(s, k, Space);
    if w > k && w < |s| && IsNameChar(s[w]) {
      r := ScanPair(s, w);
    } else {
      r := Stop(w);
    }
  }

  /** Reads a `key=value` pair at `w`. */
  method ScanPair(s: string, w: nat) returns (r: AttributeStep)
    requires w <= |s|
    ensures r == PairAt(s, w)
  {
    var e := SkipRun(s, w, NameChar);
    if e == |s| || s[e] != '=' {
      return Malformed;
    }
    var v := ScanValue(s, e + 1);
    match v {
      case None =>
        return Malformed;
      case Some((value, m)) =>
        return Pair(s[w..e], value, m);
    }
  }

  /** Moves over the run of characters of class `cls` from `i` on. */
  method SkipRun(s: string, i: nat, cls: CharClass) returns (j: nat)
    requires i <= |s|
    ensures j == RunEnd(s, i, cls)
  {
    j := i;
    while j < |s| && InClass(cls, s[j])
      invariant i <= j <= |s|
      invariant RunEnd(s, j, cls) == RunEnd(s, i, cls)
    {
      j := j + 1;
    }
  }
}
