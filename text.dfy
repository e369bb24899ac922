/** String helpers the chat server uses inline: JavaScript's `trim()`, the
    whitespace-collapsing regular expression `/[\s\t\n\r]+/g`, `split(' ')` /
    `join(' ')`, `toUpperCase()` as far as command words are concerned, and
    the `/\r$/` carriage-return strip. Strings are sequences of Unicode scalar
    values. */
module Text {

  /** The characters `String.prototype.trim()` removes and the regular
      expression class `\s` matches: ECMAScript's WhiteSpace and
      LineTerminator code points. */
  predicate IsWhitespace(c: char) {
    c == '\t' || c == '\n' || c == '\U{000B}' || c == '\U{000C}' || c == '\r' ||
    c == ' ' || c == '\U{00A0}' || c == '\U{1680}' ||
    ('\U{2000}' <= c <= '\U{200A}') ||
    c == '\U{2028}' || c == '\U{2029}' || c == '\U{202F}' || c == '\U{205F}' ||
    c == '\U{3000}' || c == '\U{FEFF}'
  }

  predicate AllWhitespace(s: string) {
    forall i :: 0 <= i < |s| ==> IsWhitespace(s[i])
  }

  /** Neither the first nor the last character is whitespace. */
  predicate NoOuterWhitespace(s: string) {
    s == [] || (!IsWhitespace(s[0]) && !IsWhitespace(s[|s| - 1]))
  }

  /** Positions `i` and `i + 1` both hold whitespace. */
  predicate WhitespacePairAt(s: string, i: nat)
    requires i + 1 < |s|
  {
    IsWhitespace(s[i]) && IsWhitespace(s[i + 1])
  }

  /** Every whitespace character is a plain space and no two are adjacent. */
  predicate Collapsed(s: string) {
    && (forall i :: 0 <= i < |s| && IsWhitespace(s[i]) ==> s[i] == ' ')
    && (forall i: nat :: i + 1 < |s| ==> !WhitespacePairAt(s, i))
  }

  /** What a cleaned MSG or DM payload looks like. */
  predicate IsClean(s: string) {
    NoOuterWhitespace(s) && Collapsed(s)
  }

  /** The non-whitespace characters of `s`, in order. */
  function Visible(s: string): string {
    if s == [] then []
    else (if IsWhitespace(s[0]) then [] else [s[0]]) + Visible(s[1..])
  }

  /** Leading whitespace removed (`trimStart()`). */
  function TrimStart(s: string): (r: string)
    ensures |r| <= |s|
    ensures r == [] || !IsWhitespace(r[0])
  {
    if s != [] && IsWhitespace(s[0]) then TrimStart(s[1..]) else s
  }

  /** `trimStart()` drops a whitespace-only prefix and keeps the rest. */
  lemma {:induction false} TrimStartDropsWhitespace(s: string)
    ensures TrimStart(s) == s[|s| - |TrimStart(s)|..]
    ensures AllWhitespace(s[..|s| - |TrimStart(s)|])
    decreases |s|
  {
    if s != [] && IsWhitespace(s[0]) {
      TrimStartDropsWhitespace(s[1..]);
      var k := |s| - |TrimStart(s)|;
      assert s[..k] == [s[0]] + s[1..][..k - 1];
    }
  }

  /** Trailing whitespace removed (`trimEnd()`). */
  function TrimEnd(s: string): (r: string)
    ensures |r| <= |s|
    ensures r == [] || !IsWhitespace(r[|r| - 1])
    ensures r != [] ==> r[0] == s[0]
  {
    if s != [] && IsWhitespace(s[|s| - 1]) then TrimEnd(s[..|s| - 1]) else s
  }

  /** `trimEnd()` drops a whitespace-only suffix and keeps the rest. */
  lemma {:induction false} TrimEndDropsWhitespace(s: string)
    ensures TrimEnd(s) == s[..|TrimEnd(s)|]
    ensures AllWhitespace(s[|TrimEnd(s)|..])
    decreases |s|
  {
    if s != [] && IsWhitespace(s[|s| - 1]) {
      var t := s[..|s| - 1];
      TrimEndDropsWhitespace(t);
      var k := |TrimEnd(s)|;
      assert s[k..] == t[k..] + [s[|s| - 1]];
    }
  }

  /** `trim()`: leading and trailing whitespace removed. */
  function Trim(s: string): (r: string)
    ensures NoOuterWhitespace(r)
  {
    TrimEnd(TrimStart(s))
  }

  /** What `trim()` drops is whitespace: the result is the part of `s`
      between a whitespace-only prefix and a whitespace-only suffix. */
  lemma TrimIsSlice(s: string)
    ensures exists i :: 0 <= i <= |s| - |Trim(s)| && Trim(s) == s[i..i + |Trim(s)|]
                        && AllWhitespace(s[..i]) && AllWhitespace(s[i + |Trim(s)|..])
  {
    var t := TrimStart(s);
    TrimStartDropsWhitespace(s);
    var r := TrimEnd(t);
    TrimEndDropsWhitespace(t);
    var i := |s| - |t|;
    assert r == s[i..i + |r|];
    assert s[i + |r|..] == t[|r|..];
  }

  /** `trim()` gives the empty string exactly for whitespace-only input. */
  lemma TrimEmpty(s: string)
    ensures Trim(s) == [] <==> AllWhitespace(s)
  {
    var t := TrimStart(s);
    TrimStartDropsWhitespace(s);
    TrimEndDropsWhitespace(t);
    assert s == s[..|s| - |t|] + t;
    if Trim(s) == [] {
      assert t == t[0..];
    }
  }

  /** `/\r$/` replaced by nothing: one trailing carriage return is dropped. */
  function StripCR(s: string): (r: string)
    ensures |s| > 0 && s[|s| - 1] == '\r' ==> s == r + "\r"
    ensures !(|s| > 0 && s[|s| - 1] == '\r') ==> r == s
  {
    if |s| > 0 && s[|s| - 1] == '\r' then s[..|s| - 1] else s
  }

  /** `s.replace(/[\s\t\n\r]+/g, ' ')`: every maximal run of whitespace
      becomes one space. */
  function Collapse(s: string): (r: string)
    ensures r == [] <==> s == []
    ensures r != [] ==> (IsWhitespace(r[0]) <==> IsWhitespace(s[0]))
    decreases |s|
  {
    if s == [] then []
    else if IsWhitespace(s[0]) then
      [' '] + Collapse(TrimStart(s[1..]))
    else [s[0]] + Collapse(s[1..])
  }

  lemma CollapsedCons(x: char, c: string)
    requires Collapsed(c)
    requires IsWhitespace(x) ==> x == ' ' && (c == [] || !IsWhitespace(c[0]))
    ensures Collapsed([x] + c)
  {
    var r := [x] + c;
    forall i | 0 <= i < |r| && IsWhitespace(r[i]) ensures r[i] == ' ' {
      if i > 0 { assert r[i] == c[i - 1]; }
    }
    forall i: nat | i + 1 < |r| ensures !WhitespacePairAt(r, i) {
      if i > 0 {
        assert r[i] == c[i - 1] && r[i + 1] == c[i];
        assert !WhitespacePairAt(c, i - 1);
      }
    }
  }

  /** After collapsing, whitespace only occurs as single spaces. */
  lemma {:induction false} CollapseIsCollapsed(s: string)
    ensures Collapsed(Collapse(s))
    decreases |s|
  {
    if s == [] {
    } else if IsWhitespace(s[0]) {
      var t := TrimStart(s[1..]);
      CollapseIsCollapsed(t);
      CollapsedCons(' ', Collapse(t));
    } else {
      CollapseIsCollapsed(s[1..]);
      CollapsedCons(s[0], Collapse(s[1..]));
    }
  }

  /** Leading whitespace of a string that is not all whitespace is all
      `trimStart()` removes from it followed by anything. */
  lemma {:induction false} TrimStartAppend(a: string, b: string)
    requires !AllWhitespace(a)
    ensures TrimStart(a + b) == TrimStart(a) + b
    decreases |a|
  {
    assert (a + b)[1..] == a[1..] + b;
    if IsWhitespace(a[0]) {
      TrimStartAppend(a[1..], b);
    }
  }

  /** `trimStart()` removes a whitespace run up to the first visible
      character. */
  lemma {:induction false} TrimStartRun(w: string, b: string)
    requires AllWhitespace(w) && (b == [] || !IsWhitespace(b[0]))
    ensures TrimStart(w + b) == b
    decreases |w|
  {
    if w == [] {
      assert w + b == b;
    } else {
      assert (w + b)[1..] == w[1..] + b;
      TrimStartRun(w[1..], b);
    }
  }

  /** Collapsing works piece by piece where a piece ends in a visible
      character: no whitespace run spans the boundary. */
  lemma {:induction false} CollapseAppend(a: string, b: string)
    requires a == [] || !IsWhitespace(a[|a| - 1])
    ensures Collapse(a + b) == Collapse(a) + Collapse(b)
    decreases |a|, 1
  {
    if a == [] {
      assert a + b == b;
    } else if IsWhitespace(a[0]) {
      CollapseAppendRun(a, b);
    } else {
      CollapseAppendVisible(a, b);
    }
  }

  /** `CollapseAppend` when `a` starts with whitespace. */
  lemma {:induction false} CollapseAppendRun(a: string, b: string)
    requires a != [] && IsWhitespace(a[0]) && !IsWhitespace(a[|a| - 1])
    ensures Collapse(a + b) == Collapse(a) + Collapse(b)
    decreases |a|, 0
  {
    assert a[1..][|a| - 2] == a[|a| - 1];
    assert (a + b)[1..] == a[1..] + b;
    TrimStartAppend(a[1..], b);
    TrimEmptyPrefix(a[1..]);
    CollapseAppend(TrimStart(a[1..]), b);
  }

  /** `CollapseAppend` when `a` starts with a visible character. */
  lemma {:induction false} CollapseAppendVisible(a: string, b: string)
    requires a != [] && !IsWhitespace(a[0]) && !IsWhitespace(a[|a| - 1])
    ensures Collapse(a + b) == Collapse(a) + Collapse(b)
    decreases |a|, 0
  {
    assert (a + b)[1..] == a[1..] + b;
    assert (a + b)[0] == a[0];
    CollapseAppend(a[1..], b);
  }

  lemma TrimEmptyPrefix(s: string)
    requires !AllWhitespace(s)
    ensures TrimStart(s) != [] && TrimStart(s)[|TrimStart(s)| - 1] == s[|s| - 1]
  {
    TrimStartDropsWhitespace(s);
  }

  /** Every maximal run of whitespace becomes exactly one space: a
      non-empty whitespace run before a visible character (or the end)
      collapses to `" "`. */
  lemma CollapseRun(w: string, b: string)
    requires w != [] && AllWhitespace(w) && (b == [] || !IsWhitespace(b[0]))
    ensures Collapse(w + b) == " " + Collapse(b)
  {
    assert (w + b)[1..] == w[1..] + b;
    TrimStartRun(w[1..], b);
  }

  /** A string without whitespace is left as it is by collapsing. */
  lemma {:induction false} CollapseWord(v: string)
    requires forall i :: 0 <= i < |v| ==> !IsWhitespace(v[i])
    ensures Collapse(v) == v
    decreases |v|
  {
    if v != [] {
      CollapseWord(v[1..]);
    }
  }

  /** A non-empty string without whitespace. */
  predicate IsWord(v: string) {
    v != [] && forall i :: 0 <= i < |v| ==> !IsWhitespace(v[i])
  }

  /** Two words with a whitespace run between them are cleaned to the
      two words with one space between them. */
  lemma CleanTwoWords(u: string, w: string, v: string)
    requires IsWord(u) && IsWord(v) && w != [] && AllWhitespace(w)
    ensures Clean(u + w + v) == u + " " + v
  {
    CollapseWord(u);
    CollapseWord(v);
    CollapseRun(w, v);
    CollapseAppend(u, w + v);
    assert u + w + v == u + (w + v);
    assert Collapse(u + w + v) == u + " " + v;
    TrimOfTrimmed(u + " " + v);
  }

  /** The payload cleaning of MSG and DM: collapse, then trim. */
  function Clean(s: string): string {
    Trim(Collapse(s))
  }

  lemma {:induction false} CollapsedSlice(s: string, i: nat, j: nat)
    requires Collapsed(s) && i <= j <= |s|
    ensures Collapsed(s[i..j])
  {
    var t := s[i..j];
    forall k: nat | k + 1 < |t|
      ensures !WhitespacePairAt(t, k)
    {
      assert t[k] == s[i + k] && t[k + 1] == s[i + k + 1];
      assert !WhitespacePairAt(s, i + k);
    }
  }

  lemma TrimKeepsCollapsed(s: string)
    requires Collapsed(s)
    ensures Collapsed(Trim(s))
  {
    var t := TrimStart(s);
    TrimStartDropsWhitespace(s);
    CollapsedSlice(s, |s| - |t|, |s|);
    assert s[|s| - |t|..|s|] == t;
    var r := TrimEnd(t);
    TrimEndDropsWhitespace(t);
    CollapsedSlice(t, 0, |r|);
    assert t[0..|r|] == r;
  }

  /** Cleaning always produces a clean string. */
  lemma CleanIsClean(s: string)
    ensures IsClean(Clean(s))
  {
    CollapseIsCollapsed(s);
    TrimKeepsCollapsed(Collapse(s));
  }

  lemma {:induction false} TrimStartOfVisible(s: string)
    requires s == [] || !IsWhitespace(s[0])
    ensures TrimStart(s) == s
  {
  }

  lemma {:induction false} CollapseOfCollapsed(s: string)
    requires Collapsed(s)
    ensures Collapse(s) == s
    decreases |s|
  {
    if s == [] {
    } else {
      CollapsedSlice(s, 1, |s|);
      assert s[1..|s|] == s[1..];
      CollapseOfCollapsed(s[1..]);
      if IsWhitespace(s[0]) {
        assert |s| > 1 ==> !WhitespacePairAt(s, 0);
        TrimStartOfVisible(s[1..]);
        assert s == [' '] + s[1..];
      } else {
        assert s == [s[0]] + s[1..];
      }
    }
  }

  /** `trim()` leaves a string without outer whitespace unchanged. */
  lemma {:induction false} TrimOfTrimmed(s: string)
    requires NoOuterWhitespace(s)
    ensures Trim(s) == s
  {
    assert TrimStart(s) == s;
    assert TrimEnd(s) == s;
  }

  /** Cleaning an already clean string returns it unchanged. */
  lemma {:induction false} CleanOfClean(s: string)
    requires IsClean(s)
    ensures Clean(s) == s
  {
    CollapseOfCollapsed(s);
    TrimOfTrimmed(s);
  }

  /** Cleaning is idempotent. */
  lemma CleanIdempotent(s: string)
    ensures Clean(Clean(s)) == Clean(s)
  {
    CleanIsClean(s);
    CleanOfClean(Clean(s));
  }

  lemma {:induction false} VisibleAppend(a: string, b: string)
    ensures Visible(a + b) == Visible(a) + Visible(b)
    decreases |a|
  {
    if a == [] {
      assert a + b == b;
    } else {
      assert (a + b)[1..] == a[1..] + b;
      VisibleAppend(a[1..], b);
    }
  }

  lemma {:induction false} VisibleOfWhitespace(s: string)
    requires AllWhitespace(s)
    ensures Visible(s) == []
    decreases |s|
  {
    if s != [] {
      VisibleOfWhitespace(s[1..]);
    }
  }

  lemma {:induction false} VisibleTrimStart(s: string)
    ensures Visible(TrimStart(s)) == Visible(s)
    decreases |s|
  {
    if s != [] && IsWhitespace(s[0]) {
      VisibleTrimStart(s[1..]);
    }
  }

  lemma {:induction false} VisibleCollapse(s: string)
    ensures Visible(Collapse(s)) == Visible(s)
    decreases |s|
  {
    if s == [] {
    } else if IsWhitespace(s[0]) {
      var t := TrimStart(s[1..]);
      VisibleCollapse(t);
      VisibleTrimStart(s[1..]);
      VisibleAppend([' '], Collapse(t));
    } else {
      VisibleCollapse(s[1..]);
      VisibleAppend([s[0]], Collapse(s[1..]));
    }
  }

  lemma VisibleTrimEnd(s: string)
    ensures Visible(TrimEnd(s)) == Visible(s)
  {
    var r := TrimEnd(s);
    TrimEndDropsWhitespace(s);
    assert s == r + s[|r|..];
    VisibleAppend(r, s[|r|..]);
    VisibleOfWhitespace(s[|r|..]);
  }

  lemma VisibleTrim(s: string)
    ensures Visible(Trim(s)) == Visible(s)
  {
    VisibleTrimStart(s);
    VisibleTrimEnd(TrimStart(s));
  }

  /** Cleaning keeps every visible character, in order, and drops nothing
      but whitespace. */
  lemma CleanKeepsVisible(s: string)
    ensures Visible(Clean(s)) == Visible(s)
  {
    VisibleCollapse(s);
    VisibleTrim(Collapse(s));
  }

  lemma {:induction false} VisibleEmpty(s: string)
    ensures Visible(s) == [] <==> AllWhitespace(s)
    decreases |s|
  {
    if s != [] {
      VisibleEmpty(s[1..]);
      assert AllWhitespace(s) <==> IsWhitespace(s[0]) && AllWhitespace(s[1..]);
    }
  }

  /** A cleaned payload is empty exactly when the payload was all whitespace. */
  lemma CleanEmpty(s: string)
    ensures Clean(s) == [] <==> AllWhitespace(s)
  {
    CleanKeepsVisible(s);
    VisibleEmpty(s);
    VisibleEmpty(Clean(s));
    CleanIsClean(s);
    if Clean(s) != [] {
      assert !IsWhitespace(Clean(s)[0]);
    }
  }

  // ---------------------------------------------------------------------
  // split(sep) and join(sep) for a one-character separator

  /** `s.split(sep)`: the fields between occurrences of `sep`. Two adjacent
      separators give an empty field; the result is never empty. */
  function Split(s: string, sep: char): (r: seq<string>)
    ensures |r| >= 1
    decreases |s|
  {
    if s == [] then [""]
    else
      var t := Split(s[1..], sep);
      if s[0] == sep then [""] + t else [[s[0]] + t[0]] + t[1..]
  }

  /** No field contains the separator. */
  lemma {:induction false} SplitFieldsFree(s: string, sep: char)
    ensures forall i :: 0 <= i < |Split(s, sep)| ==> sep !in Split(s, sep)[i]
    decreases |s|
  {
    if s != [] {
      SplitFieldsFree(s[1..], sep);
      var t := Split(s[1..], sep);
      if s[0] != sep {
        assert sep !in [s[0]] + t[0];
      }
    }
  }

  /** `fields.join(sep)`. */
  function Join(fields: seq<string>, sep: char): string
    decreases |fields|
  {
    if fields == [] then ""
    else if |fields| == 1 then fields[0]
    else fields[0] + [sep] + Join(fields[1..], sep)
  }

  /** Joining the fields of a split gives the original string back. */
  lemma {:induction false} JoinSplit(s: string, sep: char)
    ensures Join(Split(s, sep), sep) == s
    decreases |s|
  {
    if s != [] {
      var t := Split(s[1..], sep);
      JoinSplit(s[1..], sep);
      if s[0] == sep {
        assert ([""] + t)[1..] == t;
      } else if |t| == 1 {
      } else {
        assert ([[s[0]] + t[0]] + t[1..])[1..] == t[1..];
      }
    }
  }

  /** A field followed by a separator splits off as the first field. */
  lemma {:induction false} SplitField(w: string, sep: char, s: string)
    requires sep !in w
    ensures Split(w, sep) == [w]
    ensures Split(w + [sep] + s, sep) == [w] + Split(s, sep)
    decreases |w|
  {
    if w == [] {
      assert (w + [sep] + s)[1..] == s;
    } else {
      SplitField(w[1..], sep, s);
      assert (w + [sep] + s)[1..] == w[1..] + [sep] + s;
      assert [w[0]] + w[1..] == w;
    }
  }

  /** Splitting a join of separator-free fields gives the fields back. */
  lemma {:induction false} SplitJoin(fields: seq<string>, sep: char)
    requires |fields| >= 1
    requires forall i :: 0 <= i < |fields| ==> sep !in fields[i]
    ensures Split(Join(fields, sep), sep) == fields
    decreases |fields|
  {
    SplitField(fields[0], sep, "");
    if |fields| > 1 {
      SplitJoin(fields[1..], sep);
      SplitField(fields[0], sep, Join(fields[1..], sep));
      assert fields == [fields[0]] + fields[1..];
    }
  }

  // ---------------------------------------------------------------------
  // toUpperCase()

  /** Upper-case of one character, as far as it decides a comparison with
      an ASCII upper-case word: a-z map to A-Z, and the two non-ASCII letters
      whose upper-case is a plain ASCII letter, dotless i (U+0131) and long s
      (U+017F), map to I and S. Every other character is kept. */
  function UpperChar(c: char): char {
    if 'a' <= c <= 'z' then (c as int - 32) as char
    else if c == '\U{0131}' then 'I'
    else if c == '\U{017F}' then 'S'
    else c
  }

  function Upper(s: string): (r: string)
    ensures |r| == |s|
    ensures forall i :: 0 <= i < |s| ==> r[i] == UpperChar(s[i])
  {
    seq(|s|, i requires 0 <= i < |s| => UpperChar(s[i]))
  }

  /** `c` is one of the spellings `toUpperCase()` turns into the ASCII
      upper-case letter `u`. */
  predicate SpellsLetter(c: char, u: char)
    requires 'A' <= u <= 'Z'
  {
    c == u || c as int == u as int + 32
    || (u == 'I' && c == '\U{0131}') || (u == 'S' && c == '\U{017F}')
  }

  predicate IsUpperWord(w: string) {
    forall i :: 0 <= i < |w| ==> 'A' <= w[i] <= 'Z'
  }

  /** The upper-cased token equals an upper-case word exactly when each of
      its characters is a spelling of the corresponding letter. */
  lemma UpperMatches(s: string, w: string)
    requires IsUpperWord(w)
    ensures Upper(s) == w <==>
      |s| == |w| && forall i :: 0 <= i < |s| ==> SpellsLetter(s[i], w[i])
  {
    if |s| == |w| && forall i :: 0 <= i < |s| ==> SpellsLetter(s[i], w[i]) {
      assert forall i :: 0 <= i < |s| ==> Upper(s)[i] == w[i];
    }
    if Upper(s) == w {
      forall i | 0 <= i < |s| ensures SpellsLetter(s[i], w[i]) {
        assert UpperChar(s[i]) == w[i];
      }
    }
  }
}
