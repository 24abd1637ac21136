/** Splitting a text into lines that keep their terminators. */
module Lines {

  predicate IsBreak(c: char)
  {
    var n := c as int;
    0x0A <= n <= 0x0D || 0x1C <= n <= 0x1E || n == 0x85 || n == 0x2028 || n == 0x2029
  }

  /** Where the line that contains position `i` ends; `\r\n` is one terminator. */
  function LineEnd(text: string, i: nat): (n: nat)
    requires i < |text|
    ensures i < n <= |text|
    decreases |text| - i
  {
    if IsBreak(text[i]) then
      if text[i] == '\r' && i + 1 < |text| && text[i + 1] == '\n' then i + 2 else i + 1
    else if i + 1 == |text| then i + 1
    else LineEnd(text, i + 1)
  }

  function Split(text: string): (lines: seq<string>)
    ensures forall l | l in lines :: l != ""
    decreases |text|
  {
    if text == "" then []
    else
      var n := LineEnd(text, 0);
      [text[..n]] + Split(text[n..])
  }

  function Join(lines: seq<string>): string
  {
    if lines == [] then "" else lines[0] + Join(lines[1..])
  }

  lemma {:induction false} JoinSplit(text: string)
    ensures Join(Split(text)) == text
    decreases |text|
  {
    if text != "" {
      var n := LineEnd(text, 0);
      JoinSplit(text[n..]);
      assert Split(text)[1..] == Split(text[n..]);
      assert text == text[..n] + text[n..];
    }
  }

  lemma {:induction false} JoinAppend(xs: seq<string>, ys: seq<string>)
    ensures Join(xs + ys) == Join(xs) + Join(ys)
  {
    if xs == [] {
      assert xs + ys == ys;
    } else {
      assert (xs + ys)[1..] == xs[1..] + ys;
      JoinAppend(xs[1..], ys);
    }
  }

  lemma {:induction false} JoinNonEmpty(lines: seq<string>)
    requires lines != [] && lines[0] != ""
    ensures Join(lines) != ""
  {
  }

  /** A line that ends in a newline and has no other. */
  predicate Closed(line: string)
  {
    line != "" && line[|line| - 1] == '\n' && forall k | 0 <= k < |line| - 1 :: line[k] != '\n'
  }

  predicate AllClosed(lines: seq<string>)
  {
    forall l | l in lines :: Closed(l)
  }

  lemma {:induction false} FirstClosed(xs: seq<string>, ys: seq<string>)
    requires xs != [] && ys != [] && AllClosed(xs) && AllClosed(ys) && Join(xs) == Join(ys)
    ensures xs[0] == ys[0] && Join(xs[1..]) == Join(ys[1..])
  {
    assert xs[0] in xs && ys[0] in ys;
    var text, m, n := Join(xs), |xs[0]|, |ys[0]|;
    assert text[..m] == xs[0] && text[m..] == Join(xs[1..]);
    assert text[..n] == ys[0] && text[n..] == Join(ys[1..]);
    FirstNewline(xs[0], text);
    FirstNewline(ys[0], text);
  }

  lemma {:induction false} FirstNewline(line: string, text: string)
    requires Closed(line) && line <= text
    ensures text[|line| - 1] == '\n' && forall k | 0 <= k < |line| - 1 :: text[k] != '\n'
  {
    assert forall k | 0 <= k < |line| :: text[k] == line[k];
  }

  lemma {:induction false} NoTextNoLines(lines: seq<string>)
    requires AllClosed(lines)
    ensures Join(lines) == "" <==> lines == []
  {
    if lines != [] {
      assert lines[0] in lines;
      JoinNonEmpty(lines);
    }
  }

  /** Lists of newline-terminated lines can be told apart by their texts. */
  lemma {:induction false} JoinIsInjective(xs: seq<string>, ys: seq<string>)
    requires AllClosed(xs) && AllClosed(ys) && Join(xs) == Join(ys)
    ensures xs == ys
  {
    NoTextNoLines(xs);
    NoTextNoLines(ys);
    if xs != [] {
      FirstClosed(xs, ys);
      JoinIsInjective(xs[1..], ys[1..]);
      assert xs == [xs[0]] + xs[1..] && ys == [ys[0]] + ys[1..];
    }
  }

  // ---- texts of newline-terminated lines -----------------------------------------------------------

  /** The break at `i` is a newline or the first half of `\r\n`. */
  predicate NewlineBreak(text: string, i: nat)
    requires i < |text|
  {
    text[i] == '\n' || (text[i] == '\r' && i + 1 < |text| && text[i + 1] == '\n')
  }

  /** The text ends in a newline if it is not empty, and breaks nowhere else than at newlines. */
  predicate Terminated(text: string)
  {
    && (text == "" || text[|text| - 1] == '\n')
    && forall i: nat | i < |text| && IsBreak(text[i]) :: NewlineBreak(text, i)
  }

  /** A line holds no break but the one it ends in. */
  lemma {:induction false} LineEndsAtBreak(text: string, i: nat)
    requires i < |text|
    ensures var n := LineEnd(text, i);
      && (forall k | i <= k < n - 1 && IsBreak(text[k]) :: text[k] == '\r' && k + 2 == n && text[n - 1] == '\n')
      && (n < |text| ==> IsBreak(text[n - 1]) && !(text[n - 1] == '\r' && text[n] == '\n'))
    decreases |text| - i
  {
    if !IsBreak(text[i]) && i + 1 < |text| {
      LineEndsAtBreak(text, i + 1);
    }
  }

  lemma {:induction false} FirstTerminated(text: string, n: nat)
    requires text != "" && n == LineEnd(text, 0)
    ensures Closed(text[..n]) <==> text[n - 1] == '\n'
    ensures Terminated(text) <==> text[n - 1] == '\n' && Terminated(text[n..])
  {
    LineEndsAtBreak(text, 0);
    var rest := text[n..];
    assert rest != "" ==> rest[|rest| - 1] == text[|text| - 1];
    if Terminated(text) {
      assert IsBreak(text[n - 1]) ==> NewlineBreak(text, n - 1);
      forall i: nat | i < |rest| && IsBreak(rest[i]) ensures NewlineBreak(rest, i) {
        assert NewlineBreak(text, n + i);
      }
    }
    if text[n - 1] == '\n' && Terminated(rest) {
      forall i: nat | i < |text| && IsBreak(text[i]) ensures NewlineBreak(text, i) {
        if i >= n {
          assert rest[i - n] == text[i] && NewlineBreak(rest, i - n);
        }
      }
    }
  }

  /** Exactly the terminated texts split into newline-terminated lines. */
  lemma {:induction false} ClosedIffTerminated(text: string)
    ensures AllClosed(Split(text)) <==> Terminated(text)
    decreases |text|
  {
    if text != "" {
      var n := LineEnd(text, 0);
      FirstTerminated(text, n);
      ClosedIffTerminated(text[n..]);
      assert Split(text) == [text[..n]] + Split(text[n..]);
    }
  }

  // ---- the only way to split ------------------------------------------------------------------------

  /** Line feed, vertical tab, form feed, carriage return, the three separators, next line, and
      the line and paragraph separators. */
  lemma {:induction false} BreaksAre(c: char)
    ensures IsBreak(c) <==> c as int in {10, 11, 12, 13, 28, 29, 30, 133, 8232, 8233}
  {
  }

  /** One line: a break only at its end, where `\r\n` is one. */
  predicate OneLine(l: string)
  {
    l != "" && forall k | 0 <= k < |l| - 1 && IsBreak(l[k]) :: k + 2 == |l| && l[k] == '\r' && l[k + 1] == '\n'
  }

  /** The line is ended by a break, and not in the middle of `\r\n`. */
  predicate EndsBefore(l: string, next: string)
  {
    l != "" && next != "" && IsBreak(l[|l| - 1]) && !(l[|l| - 1] == '\r' && next[0] == '\n')
  }

  predicate InLines(lines: seq<string>)
  {
    && (forall k | 0 <= k < |lines| :: OneLine(lines[k]))
    && forall k | 0 <= k < |lines| - 1 :: EndsBefore(lines[k], lines[k + 1])
  }

  lemma {:induction false} LineEndIsFirst(text: string, n: nat)
    requires 0 < n <= |text| && OneLine(text[..n]) && (n < |text| ==> EndsBefore(text[..n], text[n..]))
    ensures LineEnd(text, 0) == n
  {
    LineEndsAtBreak(text, 0);
    assert forall k | 0 <= k < n :: text[..n][k] == text[k];
  }

  lemma {:induction false} SplitInLines(text: string)
    ensures InLines(Split(text))
    decreases |text|
  {
    if text != "" {
      var n := LineEnd(text, 0);
      LineEndsAtBreak(text, 0);
      SplitInLines(text[n..]);
      if n < |text| {
        var m := LineEnd(text[n..], 0);
        assert Split(text)[1] == text[n..][..m] && text[n..][..m][0] == text[n];
      }
    }
  }

  /** Splitting a text gives the one list of lines that joins to it: a line per break, and a last
      one without if the text does not end in a break. */
  lemma {:induction false} SplitIff(text: string, lines: seq<string>)
    ensures lines == Split(text) <==> Join(lines) == text && InLines(lines)
    decreases |text|
  {
    JoinSplit(text);
    SplitInLines(text);
    if Join(lines) == text && InLines(lines) {
      if lines == [] {
        assert text == "";
      } else {
        var n, rest := |lines[0]|, lines[1..];
        JoinNonEmpty(lines);
        assert text[..n] == lines[0] && text[n..] == Join(rest);
        if rest != [] {
          JoinNonEmpty(rest);
          assert EndsBefore(lines[0], lines[0 + 1]);
          assert text[n..][0] == rest[0][0];
        }
        LineEndIsFirst(text, n);
        assert forall k | 0 <= k < |rest| :: rest[k] == lines[k + 1];
        assert InLines(rest) by {
          forall k | 0 <= k < |rest| - 1 ensures EndsBefore(rest[k], rest[k + 1]) {
            assert EndsBefore(lines[k + 1], lines[k + 1 + 1]);
          }
        }
        SplitIff(text[n..], rest);
        assert lines == [lines[0]] + rest;
      }
    }
  }
}
