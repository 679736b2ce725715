/** Text split into lines at `\n` and joined back. A document read from a
    file with CR LF line ends keeps a `\r` at the end of each line; the
    parser drops it with `Chomp`. */
module Lines {

  predicate NoNewline(l: string) {
    forall i :: 0 <= i < |l| ==> l[i] != '\n'
  }

  /** The lines of `s`: the pieces between `\n` characters (one more piece
      than there are `\n`s, so a text ending in `\n` ends with an empty line). */
  function SplitLines(s: string): (ls: seq<string>)
    ensures |ls| >= 1
    ensures forall k :: 0 <= k < |ls| ==> NoNewline(ls[k])
  {
    if s == [] then [""]
    else
      var rest := SplitLines(s[1..]);
      if s[0] == '\n' then [""] + rest
      else [[s[0]] + rest[0]] + rest[1..]
  }

  /** The lines put back together with `\n` between them. */
  function JoinLines(ls: seq<string>): string
    requires |ls| >= 1
  {
    if |ls| == 1 then ls[0] else ls[0] + "\n" + JoinLines(ls[1..])
  }

  lemma {:induction false} SplitAfterLine(l: string, r: string)
    requires NoNewline(l)
    ensures SplitLines(l + r) == [l + SplitLines(r)[0]] + SplitLines(r)[1..]
  {
    if l == [] {
      assert l + r == r && l + SplitLines(r)[0] == SplitLines(r)[0];
      assert SplitLines(r) == [SplitLines(r)[0]] + SplitLines(r)[1..];
    } else {
      assert (l + r)[1..] == l[1..] + r;
      SplitAfterLine(l[1..], r);
      assert [l[0]] + (l[1..] + SplitLines(r)[0]) == l + SplitLines(r)[0];
    }
  }

  /** Splitting undoes joining, for lines that hold no `\n`. */
  lemma {:induction false} SplitJoin(ls: seq<string>)
    requires |ls| >= 1
    requires forall k :: 0 <= k < |ls| ==> NoNewline(ls[k])
    ensures SplitLines(JoinLines(ls)) == ls
  {
    if |ls| == 1 {
      SplitAfterLine(ls[0], "");
      assert ls[0] + "" == ls[0];
    } else {
      var rest := JoinLines(ls[1..]);
      SplitJoin(ls[1..]);
      assert ("\n" + rest)[1..] == rest;
      assert SplitLines("\n" + rest) == [""] + ls[1..];
      assert ls[0] + "\n" + rest == ls[0] + ("\n" + rest);
      SplitAfterLine(ls[0], "\n" + rest);
      assert ls[0] + "" == ls[0];
    }
  }

  /** Joining undoes splitting: no character is lost or added. */
  lemma {:induction false} JoinSplit(s: string)
    ensures JoinLines(SplitLines(s)) == s
  {
    if s != [] {
      var rest := SplitLines(s[1..]);
      JoinSplit(s[1..]);
      if s[0] == '\n' {
        assert SplitLines(s)[1..] == rest;
        assert s == "\n" + s[1..];
      } else {
        var ls := SplitLines(s);
        assert ls[1..] == rest[1..];
        if |rest| == 1 {
          assert s == [s[0]] + rest[0];
        } else {
          assert JoinLines(rest) == rest[0] + "\n" + JoinLines(rest[1..]);
          assert s == [s[0]] + rest[0] + "\n" + JoinLines(rest[1..]);
        }
      }
    }
  }

  /** The line without its carriage return, when it ends in one. */
  function Chomp(line: string): (r: string)
    ensures if |line| > 0 && line[|line| - 1] == '\r' then r + "\r" == line else r == line
  {
    if |line| > 0 && line[|line| - 1] == '\r' then line[..|line| - 1] else line
  }
}
