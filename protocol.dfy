/** How `processLine` (index.js:100-166) reads a command line, and the
    replies it sends. */
module Protocol {
  import opened Text

  const Welcome := "Welcome! Please login with: LOGIN <username>"
  const Ok := "OK"
  const Pong := "PONG"
  const ErrInvalidUsername := "ERR invalid-username"
  const ErrUsernameTaken := "ERR username-taken"
  const ErrNotLoggedIn := "ERR not-logged-in"
  const ErrInvalidDm := "ERR invalid-dm"
  const ErrUserNotFound := "ERR user-not-found"
  const ErrUnknownCommand := "ERR unknown-command"
  const IdleNotice := "INFO disconnected due to inactivity"

  function Connected(name: string): string { "INFO " + name + " connected" }
  function Disconnected(name: string): string { "INFO " + name + " disconnected" }
  function ChatLine(from: string, text: string): string { "MSG " + from + " " + text }
  function DmLine(from: string, text: string): string { "DM " + from + " " + text }
  function DmEcho(from: string, target: string, text: string): string {
    "DM " + from + " -> " + target + " " + text
  }

  /** `line.split(' ')`: the command word and the words after it. */
  function Fields(line: string): seq<string> {
    Split(line, ' ')
  }

  /** `command.toUpperCase()` of the first word. */
  function Verb(line: string): string {
    Upper(Fields(line)[0])
  }

  /** `rest.join(' ')`: the words after the command word. */
  function Argument(line: string): string {
    Join(Fields(line)[1..], ' ')
  }

  /** `rest[0]` for DM, with a missing word read as the empty string (both
      are falsy). */
  function DmTarget(line: string): string {
    var f := Fields(line);
    if |f| >= 2 then f[1] else ""
  }

  /** `rest.slice(1).join(' ')` for DM. */
  function DmText(line: string): string {
    var f := Fields(line);
    if |f| >= 2 then Join(f[2..], ' ') else ""
  }

  /** The argument is everything after the first space, unchanged: joining
      the words again restores the spaces `split` removed, runs of spaces
      included. A line without a space is all command word. */
  lemma {:induction false} ArgumentAfterFirstSpace(line: string)
    ensures ' ' !in line ==> Fields(line) == [line] && Argument(line) == ""
    ensures ' ' in line ==> line == Fields(line)[0] + " " + Argument(line)
    ensures ' ' !in Fields(line)[0]
  {
    SplitFieldsFree(line, ' ');
    JoinSplit(line, ' ');
    if ' ' !in line {
      SplitField(line, ' ', "");
    } else {
      var f := Fields(line);
      if |f| >= 2 {
        JoinCons(f, ' ');
      }
    }
  }

  lemma JoinCons(f: seq<string>, sep: char)
    requires |f| >= 2
    ensures Join(f, sep) == f[0] + [sep] + Join(f[1..], sep)
  {
  }

  /** For DM, the argument is the target word, then a space, then the text;
      the target word holds no space. */
  lemma DmArgument(line: string)
    requires |Fields(line)| >= 2
    ensures ' ' !in DmTarget(line)
    ensures |Fields(line)| >= 3 ==> Argument(line) == DmTarget(line) + " " + DmText(line)
    ensures |Fields(line)| == 2 ==> Argument(line) == DmTarget(line) && DmText(line) == ""
  {
    var f := Fields(line);
    SplitFieldsFree(line, ' ');
    assert f[1] == f[1..][0];
    if |f| >= 3 {
      JoinCons(f[1..], ' ');
      assert f[1..][1..] == f[2..];
    } else {
      assert f[1..] == [f[1]];
      assert f[2..] == [];
    }
  }

  /** The command word is matched without regard to case: `Verb(line)` is
      `LOGIN` exactly when the first word spells it in any mix of cases
      (and likewise for PING, MSG, WHO and DM). */
  lemma VerbMatches(line: string, word: string)
    requires IsUpperWord(word)
    ensures Verb(line) == word <==>
      |Fields(line)[0]| == |word| &&
      forall i :: 0 <= i < |word| ==> SpellsLetter(Fields(line)[0][i], word[i])
  {
    UpperMatches(Fields(line)[0], word);
  }
}
