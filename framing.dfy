/** The line framer of the `data` handler (index.js:71-84), as functions of the
    text a connection has received and not yet framed: the complete lines it
    holds, the unterminated tail that stays buffered, and the command lines
    that reach the dispatcher. */
module Framing {
  import opened Text

  /** `s.indexOf(c)`: the position of the first `c` in `s`, or -1
      (IndexOfFinds states this). */
  function IndexOf(s: string, c: char): (r: int)
    ensures -1 <= r < |s|
  {
    if s == [] then -1
    else if s[0] == c then 0
    else
      var k := IndexOf(s[1..], c);
      if k == -1 then -1 else k + 1
  }

  /** `indexOf` answers -1 exactly when `c` does not occur, and otherwise
      the position of its first occurrence. */
  lemma {:induction false} IndexOfFinds(s: string, c: char)
    ensures IndexOf(s, c) == -1 <==> c !in s
    ensures IndexOf(s, c) >= 0 ==> s[IndexOf(s, c)] == c && c !in s[..IndexOf(s, c)]
    decreases |s|
  {
    if s != [] && s[0] != c {
      IndexOfFinds(s[1..], c);
      assert s == [s[0]] + s[1..];
      if IndexOf(s, c) >= 0 {
        assert s[..IndexOf(s, c)] == [s[0]] + s[1..][..IndexOf(s[1..], c)];
      }
    }
  }

  /** The complete lines of `s`: every piece that a `\n` terminates, without
      the `\n`, in stream order. */
  function RawLines(s: string): seq<string> {
    var pieces := Split(s, '\n');
    pieces[..|pieces| - 1]
  }

  /** The unterminated tail of `s`, which stays in the buffer. */
  function Remainder(s: string): string {
    var pieces := Split(s, '\n');
    pieces[|pieces| - 1]
  }

  /** No complete line, and not the buffered tail, contains a `\n`. */
  lemma NoNewlineInPieces(s: string)
    ensures forall k :: 0 <= k < |RawLines(s)| ==> '\n' !in RawLines(s)[k]
    ensures '\n' !in Remainder(s)
  {
    SplitFieldsFree(s, '\n');
  }

  /** Each line with its `\n` put back, concatenated. */
  function Terminated(lines: seq<string>): string {
    if lines == [] then "" else lines[0] + "\n" + Terminated(lines[1..])
  }

  lemma {:induction false} JoinAsTerminated(lines: seq<string>, tail: string)
    ensures Join(lines + [tail], '\n') == Terminated(lines) + tail
    decreases |lines|
  {
    if lines == [] {
      assert lines + [tail] == [tail];
    } else {
      assert (lines + [tail])[1..] == lines[1..] + [tail];
      JoinAsTerminated(lines[1..], tail);
    }
  }

  /** Framing loses nothing: the complete lines, each with its terminator,
      followed by the buffered tail, are the received text. */
  lemma FramingRoundTrip(s: string)
    ensures s == Terminated(RawLines(s)) + Remainder(s)
  {
    JoinSplit(s, '\n');
    LastSplit(Split(s, '\n'));
    JoinAsTerminated(RawLines(s), Remainder(s));
  }

  lemma LastSplit<T>(p: seq<T>)
    requires |p| >= 1
    ensures p == p[..|p| - 1] + [p[|p| - 1]]
  {
  }

  /** Text without a `\n` holds no complete line: all of it stays buffered. */
  lemma NoNewlineStaysBuffered(s: string)
    requires '\n' !in s
    ensures RawLines(s) == [] && Remainder(s) == s
  {
    SplitField(s, '\n', "");
  }

  /** Peeling off the first complete line, which is the step the framer's
      loop takes: the text before the first `\n` is the first complete line,
      and what follows that `\n` holds the other lines and the same tail. */
  lemma FirstLine(s: string)
    requires IndexOf(s, '\n') != -1
    ensures var i := IndexOf(s, '\n');
      RawLines(s) == [s[..i]] + RawLines(s[i + 1..]) && Remainder(s) == Remainder(s[i + 1..])
  {
    IndexOfFinds(s, '\n');
    LineAt(s, IndexOf(s, '\n'));
  }

  lemma LineAt(s: string, i: nat)
    requires i < |s| && s[i] == '\n' && '\n' !in s[..i]
    ensures RawLines(s) == [s[..i]] + RawLines(s[i + 1..]) && Remainder(s) == Remainder(s[i + 1..])
  {
    assert s == s[..i] + ['\n'] + s[i + 1..];
    SplitField(s[..i], '\n', s[i + 1..]);
    var q := Split(s[i + 1..], '\n');
    assert ([s[..i]] + q)[..|q|] == [s[..i]] + q[..|q| - 1];
  }

  /** When `s` holds no `\n`, `indexOf` reports -1 and nothing is framed. */
  lemma NoLine(s: string)
    requires IndexOf(s, '\n') == -1
    ensures RawLines(s) == [] && Remainder(s) == s
  {
    IndexOfFinds(s, '\n');
    NoNewlineStaysBuffered(s);
  }

  lemma TerminatedCons(lines: seq<string>, rest: string)
    requires lines != []
    ensures Terminated(lines) + rest == lines[0] + ['\n'] + (Terminated(lines[1..]) + rest)
  {
  }

  lemma ConsAssoc<T>(x: T, xs: seq<T>, ys: seq<T>)
    ensures [x] + (xs + ys) == ([x] + xs) + ys
  {
  }

  /** Complete lines in front of any text split off one by one. */
  lemma {:induction false} SplitAfterLines(lines: seq<string>, rest: string)
    requires forall k :: 0 <= k < |lines| ==> '\n' !in lines[k]
    ensures Split(Terminated(lines) + rest, '\n') == lines + Split(rest, '\n')
    decreases |lines|
  {
    if lines != [] {
      var tail := Terminated(lines[1..]) + rest;
      SplitAfterLines(lines[1..], rest);
      TerminatedCons(lines, rest);
      SplitField(lines[0], '\n', tail);
      calc {
        Split(Terminated(lines) + rest, '\n');
        Split(lines[0] + ['\n'] + tail, '\n');
        [lines[0]] + Split(tail, '\n');
        [lines[0]] + (lines[1..] + Split(rest, '\n'));
        { ConsAssoc(lines[0], lines[1..], Split(rest, '\n')); }
        ([lines[0]] + lines[1..]) + Split(rest, '\n');
        { assert [lines[0]] + lines[1..] == lines; }
        lines + Split(rest, '\n');
      }
    } else {
      assert Terminated(lines) + rest == rest;
      assert lines + Split(rest, '\n') == Split(rest, '\n');
    }
  }

  /** Framing does not depend on where the stream was cut into chunks: the
      lines found in `a` and then in what `a` left buffered followed by `b`
      are the lines of `a + b`, and the buffered tail is the same. */
  lemma ChunkBoundary(a: string, b: string)
    ensures RawLines(a + b) == RawLines(a) + RawLines(Remainder(a) + b)
    ensures Remainder(a + b) == Remainder(Remainder(a) + b)
  {
    FramingRoundTrip(a);
    NoNewlineInPieces(a);
    assert a + b == Terminated(RawLines(a)) + (Remainder(a) + b);
    SplitAfterLines(RawLines(a), Remainder(a) + b);
    var q := Split(Remainder(a) + b, '\n');
    assert Split(a + b, '\n') == RawLines(a) + q;
  }

  /** When the lines taken off so far, followed by the lines still in the
      buffer, are the lines of `text`, and the buffer holds no `\n` any
      more, then every line of `text` has been taken off and the buffer is
      its tail. */
  lemma FramedAll(text: string, taken: seq<string>, buffer: string)
    requires RawLines(text) == taken + RawLines(buffer)
    requires Remainder(text) == Remainder(buffer)
    requires IndexOf(buffer, '\n') == -1
    ensures taken == RawLines(text) && buffer == Remainder(text) && '\n' !in buffer
  {
    NoLine(buffer);
    IndexOfFinds(buffer, '\n');
    assert taken + [] == taken;
  }

  /** One line as the framer hands it on: `line.replace(/\r$/, '').trim()`. */
  function Normalize(line: string): string {
    Trim(StripCR(line))
  }

  lemma NormalizeNoNewline(line: string)
    requires '\n' !in line
    ensures '\n' !in Normalize(line)
  {
    var s := StripCR(line);
    assert forall k :: 0 <= k < |s| ==> s[k] == line[k];
    var t := TrimStart(s);
    TrimStartDropsWhitespace(s);
    assert forall k :: 0 <= k < |t| ==> t[k] == s[|s| - |t| + k];
    var r := TrimEnd(t);
    TrimEndDropsWhitespace(t);
    assert forall k :: 0 <= k < |r| ==> r[k] == t[k];
  }

  /** The complete lines, each normalised. */
  function NormalizeAll(raw: seq<string>): seq<string> {
    if raw == [] then [] else [Normalize(raw[0])] + NormalizeAll(raw[1..])
  }

  lemma {:induction false} NormalizeAllAppend(a: seq<string>, b: seq<string>)
    ensures NormalizeAll(a + b) == NormalizeAll(a) + NormalizeAll(b)
    decreases |a|
  {
    if a == [] {
      assert a + b == b;
    } else {
      assert (a + b)[0] == a[0];
      assert (a + b)[1..] == a[1..] + b;
      NormalizeAllAppend(a[1..], b);
    }
  }

  lemma {:induction false} NormalizeAllAt(raw: seq<string>, j: nat)
    requires j < |raw|
    ensures |NormalizeAll(raw)| == |raw| && NormalizeAll(raw)[j] == Normalize(raw[j])
    decreases |raw|
  {
    if j > 0 {
      NormalizeAllAt(raw[1..], j - 1);
    } else {
      NormalizeAllLength(raw);
    }
  }

  lemma {:induction false} NormalizeAllLength(raw: seq<string>)
    ensures |NormalizeAll(raw)| == |raw|
    decreases |raw|
  {
    if raw != [] {
      NormalizeAllLength(raw[1..]);
    }
  }

  /** The lines without the empty ones (`if (line.length === 0) continue`). */
  function DropEmpty(lines: seq<string>): seq<string> {
    if lines == [] then []
    else (if lines[0] == [] then [] else [lines[0]]) + DropEmpty(lines[1..])
  }

  /** The lines passed to `processLine`, from a run of complete lines:
      normalised, with the ones that become empty skipped. */
  function Dispatchable(raw: seq<string>): seq<string> {
    DropEmpty(NormalizeAll(raw))
  }

  lemma {:induction false} DropEmptyKeeps(lines: seq<string>)
    ensures forall i :: 0 <= i < |DropEmpty(lines)| ==>
      DropEmpty(lines)[i] != [] && DropEmpty(lines)[i] in lines
    decreases |lines|
  {
    if lines != [] {
      DropEmptyKeeps(lines[1..]);
    }
  }

  /** A dispatched line is a non-empty normalised complete line: it does not
      start or end with whitespace, and it holds no `\n` when the complete
      lines hold none. */
  lemma DispatchableAreTrimmed(raw: seq<string>)
    ensures forall i :: 0 <= i < |Dispatchable(raw)| ==>
      Dispatchable(raw)[i] != [] && NoOuterWhitespace(Dispatchable(raw)[i])
    ensures (forall i :: 0 <= i < |raw| ==> '\n' !in raw[i]) ==>
      forall i :: 0 <= i < |Dispatchable(raw)| ==> '\n' !in Dispatchable(raw)[i]
  {
    var n := NormalizeAll(raw);
    DropEmptyKeeps(n);
    NormalizeAllLength(raw);
    forall j | 0 <= j < |n| ensures NoOuterWhitespace(n[j]) {
      NormalizeAllAt(raw, j);
    }
    if forall i :: 0 <= i < |raw| ==> '\n' !in raw[i] {
      forall j | 0 <= j < |n| ensures '\n' !in n[j] {
        NormalizeAllAt(raw, j);
        NormalizeNoNewline(raw[j]);
      }
    }
  }

  lemma {:induction false} DropEmptyAppend(a: seq<string>, b: seq<string>)
    ensures DropEmpty(a + b) == DropEmpty(a) + DropEmpty(b)
    decreases |a|
  {
    if a == [] {
      assert a + b == b;
    } else {
      assert (a + b)[0] == a[0];
      assert (a + b)[1..] == a[1..] + b;
      DropEmptyAppend(a[1..], b);
    }
  }

  lemma DispatchableAppend(a: seq<string>, b: seq<string>)
    ensures Dispatchable(a + b) == Dispatchable(a) + Dispatchable(b)
  {
    NormalizeAllAppend(a, b);
    DropEmptyAppend(NormalizeAll(a), NormalizeAll(b));
  }

  /** One complete line is dispatched, normalised, unless it normalises to
      the empty line. */
  lemma DispatchableOne(raw: string)
    ensures Dispatchable([raw]) == if Normalize(raw) == [] then [] else [Normalize(raw)]
  {
    assert [raw][1..] == [];
    assert NormalizeAll([raw]) == [Normalize(raw)] + NormalizeAll([]);
    var n := [Normalize(raw)];
    assert n[1..] == [];
    assert DropEmpty(n) == (if n[0] == [] then [] else [n[0]]) + DropEmpty([]);
  }

  /** Every command line that reaches the dispatcher from received text `s`. */
  function Commands(s: string): seq<string> {
    Dispatchable(RawLines(s))
  }

  /** The dispatched command lines, too, are the same whether the text
      arrives as `a` then `b` or as `a + b` at once. */
  lemma CommandsChunkBoundary(a: string, b: string)
    ensures Commands(a + b) == Commands(a) + Commands(Remainder(a) + b)
  {
    ChunkBoundary(a, b);
    DispatchableAppend(RawLines(a), RawLines(Remainder(a) + b));
  }

  /** Every dispatched command line is non-empty, holds no `\n`, and has no
      leading or trailing whitespace. */
  lemma CommandsAreClean(s: string)
    ensures forall i :: 0 <= i < |Commands(s)| ==>
      Commands(s)[i] != [] && '\n' !in Commands(s)[i] && NoOuterWhitespace(Commands(s)[i])
  {
    NoNewlineInPieces(s);
    DispatchableAreTrimmed(RawLines(s));
  }
}
