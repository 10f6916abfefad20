/**
 Line reassembly: `buffer.split("\n")` followed by `lines.pop()`. The text
 seen so far is cut into the complete lines (each of which was followed by a
 `\n`) and the pending fragment after the last `\n`.
 */
module Lines {

  predicate NoNewline(s: string) {
    '\n' !in s
  }

  predicate AllNoNewline(lines: seq<string>) {
    forall i :: 0 <= i < |lines| ==> NoNewline(lines[i])
  }

  /** The text a sequence of complete lines occupies on the wire: each line
      followed by its `\n`. */
  function Terminated(lines: seq<string>): string
  {
    if lines == [] then "" else lines[0] + "\n" + Terminated(lines[1..])
  }

  lemma {:induction false} TerminatedAppend(a: seq<string>, b: seq<string>)
    ensures Terminated(a + b) == Terminated(a) + Terminated(b)
    decreases |a|
  {
    if a == [] {
      assert a + b == b;
    } else {
      assert (a + b)[1..] == a[1..] + b;
      TerminatedAppend(a[1..], b);
    }
  }

  /** `s.split("\n")`, one character at a time. */
  function SplitLines(s: string): (parts: seq<string>)
    ensures |parts| >= 1
    decreases |s|
  {
    if s == [] then
      [""]
    else
      var rest := SplitLines(s[1..]);
      if s[0] == '\n' then [""] + rest else [[s[0]] + rest[0]] + rest[1..]
  }

  /** The pieces SplitLines returns are `\n`-free, and the text is exactly
      every piece but the last followed by `\n`, then the last piece. */
  lemma {:induction false} SplitLinesSpec(s: string)
    ensures var parts := SplitLines(s);
            && AllNoNewline(parts)
            && s == Terminated(parts[..|parts| - 1]) + parts[|parts| - 1]
    decreases |s|
  {
    if s != [] {
      var rest := SplitLines(s[1..]);
      SplitLinesSpec(s[1..]);
      var init := rest[..|rest| - 1];
      assert s == [s[0]] + s[1..];
      assert s[1..] == Terminated(init) + rest[|rest| - 1];
      if s[0] == '\n' {
        SplitNewline(s, rest);
      } else {
        SplitOther(s, rest);
      }
    }
  }

  lemma SplitNewline(s: string, rest: seq<string>)
    requires s != [] && s[0] == '\n' && |rest| >= 1 && AllNoNewline(rest)
    requires s[1..] == Terminated(rest[..|rest| - 1]) + rest[|rest| - 1]
    ensures var parts := [""] + rest;
            && AllNoNewline(parts)
            && s == Terminated(parts[..|parts| - 1]) + parts[|parts| - 1]
  {
    var parts := [""] + rest;
    assert parts[..|parts| - 1] == [""] + rest[..|rest| - 1];
    assert parts[..|parts| - 1][1..] == rest[..|rest| - 1];
    assert s == [s[0]] + s[1..];
  }

  lemma SplitOther(s: string, rest: seq<string>)
    requires s != [] && s[0] != '\n' && |rest| >= 1 && AllNoNewline(rest)
    requires s[1..] == Terminated(rest[..|rest| - 1]) + rest[|rest| - 1]
    ensures var parts := [[s[0]] + rest[0]] + rest[1..];
            && AllNoNewline(parts)
            && s == Terminated(parts[..|parts| - 1]) + parts[|parts| - 1]
  {
    var parts := [[s[0]] + rest[0]] + rest[1..];
    assert s == [s[0]] + s[1..];
    assert '\n' !in [s[0]] + rest[0];
    if |rest| > 1 {
      var init := rest[..|rest| - 1];
      assert init[1..] == rest[1..][..|rest| - 2];
      assert parts[..|parts| - 1] == [[s[0]] + rest[0]] + init[1..];
      assert parts[..|parts| - 1][1..] == init[1..];
      assert Terminated(init) == rest[0] + "\n" + Terminated(init[1..]);
    } else {
      assert parts[..|parts| - 1] == [];
    }
  }

  /** What the decoder holds after splitting: the complete lines and the
      pending fragment. */
  datatype Reassembly = Reassembly(lines: seq<string>, rest: string)

  /** The split of `sendChatMessage` (src/app/page.tsx:50-51): split the
      buffer on `\n` and pop the last piece off as the new buffer. Nothing is
      lost: the text is exactly the complete lines, each followed by `\n`,
      then the pending fragment. */
  function Reassemble(text: string): (r: Reassembly)
    ensures AllNoNewline(r.lines) && NoNewline(r.rest)
    ensures text == Terminated(r.lines) + r.rest
  {
    var parts := SplitLines(text);
    SplitLinesSpec(text);
    Reassembly(parts[..|parts| - 1], parts[|parts| - 1])
  }

  /** The first line of terminated text is everything before its first `\n`. */
  lemma FirstLine(lines: seq<string>, rest: string)
    requires lines != [] && NoNewline(lines[0])
    ensures var text := Terminated(lines) + rest;
            && |lines[0]| < |text|
            && text[..|lines[0]|] == lines[0]
            && text[|lines[0]|] == '\n'
            && text[|lines[0]| + 1..] == Terminated(lines[1..]) + rest
  {
    var l, t := lines[0], Terminated(lines[1..]) + rest;
    assert Terminated(lines) + rest == l + ("\n" + t);
    SplitAt(l, '\n', t);
  }

  lemma SplitAt(a: string, c: char, b: string)
    ensures var s := a + ([c] + b);
            && |a| < |s| && s[..|a|] == a && s[|a|] == c && s[|a| + 1..] == b
  {
  }

  /** Terminated text followed by a `\n`-free fragment splits only one way. */
  lemma {:induction false} TerminatedInjective(ls: seq<string>, r: string, ls': seq<string>, r': string)
    requires AllNoNewline(ls) && NoNewline(r)
    requires AllNoNewline(ls') && NoNewline(r')
    requires Terminated(ls) + r == Terminated(ls') + r'
    ensures ls == ls' && r == r'
    decreases |ls|
  {
    var text := Terminated(ls) + r;
    if ls == [] && ls' == [] {
      assert Terminated(ls) == "" == Terminated(ls');
      assert r == Terminated(ls) + r == Terminated(ls') + r' == r';
    } else if ls == [] {
      FirstLine(ls', r');
      assert false;
    } else if ls' == [] {
      FirstLine(ls, r);
      assert false;
    } else {
      FirstLine(ls, r);
      FirstLine(ls', r');
      if |ls[0]| < |ls'[0]| {
        assert false;
      } else if |ls'[0]| < |ls[0]| {
        assert false;
      } else {
        TerminatedInjective(ls[1..], r, ls'[1..], r');
        assert ls == [ls[0]] + ls[1..];
        assert ls' == [ls'[0]] + ls'[1..];
      }
    }
  }

  /** Reassemble is the inverse of Terminated: any decomposition of a text
      into `\n`-free lines and a `\n`-free fragment is the one it finds. */
  lemma ReassembleUnique(lines: seq<string>, rest: string)
    requires AllNoNewline(lines) && NoNewline(rest)
    ensures Reassemble(Terminated(lines) + rest) == Reassembly(lines, rest)
  {
    var r := Reassemble(Terminated(lines) + rest);
    TerminatedInjective(r.lines, r.rest, lines, rest);
  }

  /** Reassembling a text in two pieces, carrying the first piece's pending
      fragment into the second, gives the same lines and fragment as
      reassembling it whole. */
  lemma ReassembleAppend(x: string, y: string)
    ensures var rx := Reassemble(x);
            var ry := Reassemble(rx.rest + y);
            Reassemble(x + y) == Reassembly(rx.lines + ry.lines, ry.rest)
  {
    var rx := Reassemble(x);
    var ry := Reassemble(rx.rest + y);
    AppendTexts(x, rx.lines, rx.rest, y, ry.lines, ry.rest);
    ReassembleUnique(rx.lines + ry.lines, ry.rest);
  }

  lemma AppendTexts(x: string, lx: seq<string>, rx: string, y: string, ly: seq<string>, ry: string)
    requires x == Terminated(lx) + rx && rx + y == Terminated(ly) + ry
    requires AllNoNewline(lx) && AllNoNewline(ly)
    ensures x + y == Terminated(lx + ly) + ry
    ensures AllNoNewline(lx + ly)
  {
    TerminatedAppend(lx, ly);
    assert x + y == Terminated(lx) + (rx + y);
  }

  /** The pending fragment is the text after the last `\n`: it is a suffix of
      the text and, unless it is the whole text, a `\n` precedes it. */
  lemma RestIsAfterLastNewline(text: string)
    ensures var rest := Reassemble(text).rest;
            && |rest| <= |text|
            && text[|text| - |rest|..] == rest
            && (|rest| < |text| ==> text[|text| - |rest| - 1] == '\n')
  {
    var r := Reassemble(text);
    if r.lines != [] {
      TerminatedAppend(r.lines[..|r.lines| - 1], [r.lines[|r.lines| - 1]]);
      assert r.lines == r.lines[..|r.lines| - 1] + [r.lines[|r.lines| - 1]];
      assert Terminated([r.lines[|r.lines| - 1]]) == r.lines[|r.lines| - 1] + "\n";
    }
  }
}
