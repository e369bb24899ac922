/** The chat server's state as one value, and what each event handler does
    to it:
    - the `connection` handler (index.js:61-69);
    - the `data` handler (:71-84) and `processLine` (:100-166);
    - `cleanupSocket` (:37-46);
    - the idle timer's callback (:51-57).
    The class `Server.ChatServer` performs these updates in place and is
    proved against the functions here. The invariant `Consistent` and the
    properties of the handlers are proved here, on values. */
module Handlers {
  import opened Text
  import opened Framing
  import opened Registry
  import opened Delivery
  import opened Protocol

  /** What the handlers keep on a socket object: `_buffer`, `_loggedIn`,
      `_username` (`null` is `None`), and whether `_timeout` holds a pending
      idle timer. */
  datatype Session = Session(buffer: string, loggedIn: bool, username: Option<string>, idleArmed: bool)

  /** A socket is logged in exactly when it has a user name, and a user name
      is never empty (LOGIN refuses the empty name). */
  predicate SessionOk(s: Session) {
    (s.loggedIn <==> s.username.Some?) && (s.username.Some? ==> s.username.value != "")
  }

  /** Everything the server keeps:
      - the `sockets` Set and the `users` Map, in insertion order;
      - every socket that ever connected, with its handler state (a socket
        object outlives its cleanup, and so does its entry here);
      - every `safeWrite` performed so far, in order;
      - the identity the next connection gets. */
  datatype World = World(sockets: seq<Sid>, users: seq<Entry>, sessions: map<Sid, Session>,
                         log: seq<Write>, nextSid: nat)

  /** The `users` entry `e` names a logged-in socket under that name. */
  predicate Registered(w: World, e: Entry) {
    e.sock in w.sessions && w.sessions[e.sock].loggedIn && w.sessions[e.sock].username == Some(e.name)
  }

  /** The invariant every handler keeps:
      - the Set holds distinct, known sockets;
      - identities below `nextSid` are the ones handed out;
      - the Map's keys are unique, and each names a logged-in socket under
        that name. */
  predicate Consistent(w: World) {
    && NoDup(w.sockets)
    && (forall s :: s in w.sockets ==> s in w.sessions)
    && (forall s :: s in w.sessions ==> s < w.nextSid && SessionOk(w.sessions[s]))
    && UniqueNames(w.users)
    && (forall i :: 0 <= i < |w.users| ==> Registered(w, w.users[i]))
  }

  /** The writes `ws` are performed, and nothing else changes. */
  function Wrote(w: World, ws: seq<Write>): World {
    w.(log := w.log + ws)
  }

  /** `${sock._username}` in a template literal: a name, or `null`. */
  function Shown(u: Option<string>): string {
    if u.Some? then u.value else "null"
  }

  // ---------------------------------------------------------------------
  // connection

  /** The `connection` handler: the next identity joins the Set with an
      empty buffer, not logged in, with its idle timer started, and is
      greeted. */
  function ConnectStep(w: World): World {
    var sid := w.nextSid;
    World(Add(w.sockets, sid), w.users, w.sessions[sid := Session("", false, None, true)],
          w.log + [Write(sid, Welcome)], sid + 1)
  }

  // ---------------------------------------------------------------------
  // processLine

  /** `sock._loggedIn = true; sock._username = name; users.set(name, sock)`. */
  function RegisterStep(w: World, sid: Sid, name: string): World
    requires sid in w.sessions
  {
    w.(users := Put(w.users, name, sid),
       sessions := w.sessions[sid := w.sessions[sid].(loggedIn := true, username := Some(name))])
  }

  /** LOGIN from a socket that is not logged in. A blank name is refused,
      and so is a taken one. Otherwise the socket is registered, told OK,
      and every other socket is told that the user connected. */
  function LoginStep(w: World, sid: Sid, line: string): World
    requires sid in w.sessions
  {
    var name := Trim(Argument(line));
    if name == "" then Wrote(w, [Write(sid, ErrInvalidUsername)])
    else if name in Names(w.users) then Wrote(w, [Write(sid, ErrUsernameTaken)])
    else Wrote(RegisterStep(w, sid, name), [Write(sid, Ok)] + Fanout(w.sockets, Some(sid), Connected(name)))
  }

  /** MSG: an empty text is ignored; otherwise the cleaned text goes to
      every socket, the sender's included. */
  function ChatStep(w: World, sid: Sid, line: string): World
    requires sid in w.sessions
  {
    var text := Trim(Argument(line));
    if text == "" then w
    else Wrote(w, Fanout(w.sockets, None, ChatLine(Shown(w.sessions[sid].username), Clean(text))))
  }

  /** WHO: a `USER` line for every key of the Map, to the asking socket. */
  function WhoStep(w: World, sid: Sid): World {
    Wrote(w, UserList(sid, Names(w.users)))
  }

  /** DM: a missing target or an empty text is refused, and so is a target
      under which nobody is registered. Otherwise the cleaned text goes to
      the target, and a confirmation to the sender. */
  function DmStep(w: World, sid: Sid, line: string): World
    requires sid in w.sessions
  {
    var target := DmTarget(line);
    var text := Trim(DmText(line));
    if target == "" || text == "" then Wrote(w, [Write(sid, ErrInvalidDm)])
    else match Lookup(w.users, target)
      case None => Wrote(w, [Write(sid, ErrUserNotFound)])
      case Some(t) =>
        var from := Shown(w.sessions[sid].username);
        Wrote(w, [Write(t, DmLine(from, Clean(text))), Write(sid, DmEcho(from, target, Clean(text)))])
  }

  /** `processLine` on a socket that is not logged in: only LOGIN and PING
      are served. */
  function BeforeLoginStep(w: World, sid: Sid, line: string): World
    requires sid in w.sessions
  {
    var cmd := Verb(line);
    if cmd == "LOGIN" then LoginStep(w, sid, line)
    else Wrote(w, [Write(sid, if cmd == "PING" then Pong else ErrNotLoggedIn)])
  }

  /** `processLine` on a logged-in socket: MSG, WHO, DM and PING are
      served. */
  function AfterLoginStep(w: World, sid: Sid, line: string): World
    requires sid in w.sessions
  {
    var cmd := Verb(line);
    if cmd == "MSG" then ChatStep(w, sid, line)
    else if cmd == "WHO" then WhoStep(w, sid)
    else if cmd == "DM" then DmStep(w, sid, line)
    else Wrote(w, [Write(sid, if cmd == "PING" then Pong else ErrUnknownCommand)])
  }

  /** `processLine(sock, line)`. It never adds or removes a socket's
      state. */
  function ProcessStep(w: World, sid: Sid, line: string): (r: World)
    requires sid in w.sessions
    ensures r.sessions.Keys == w.sessions.Keys
  {
    if w.sessions[sid].loggedIn then AfterLoginStep(w, sid, line) else BeforeLoginStep(w, sid, line)
  }

  /** `processLine` on each of `lines`, in order. */
  function RunLines(w: World, sid: Sid, lines: seq<string>): (r: World)
    requires sid in w.sessions
    ensures r.sessions.Keys == w.sessions.Keys
    decreases |lines|
  {
    if lines == [] then w
    else ProcessStep(RunLines(w, sid, lines[..|lines| - 1]), sid, lines[|lines| - 1])
  }

  // ---------------------------------------------------------------------
  // data

  /** The socket's buffer set to `b`. */
  function WithBuffer(w: World, sid: Sid, b: string): World
    requires sid in w.sessions
  {
    w.(sessions := w.sessions[sid := w.sessions[sid].(buffer := b)])
  }

  /** The `data` handler: the idle timer restarts, and of the buffered text
      followed by the chunk, the unterminated tail stays buffered and the
      command lines go through `processLine`, in order. */
  function DataStep(w: World, sid: Sid, data: string): World
    requires sid in w.sessions
  {
    RunLines(DataStart(w, sid, data), sid, Commands(w.sessions[sid].buffer + data))
  }

  /** The state the command lines of a `data` event are processed from: the
      timer pends and the buffer already holds the tail it keeps. */
  function DataStart(w: World, sid: Sid, data: string): World
    requires sid in w.sessions
  {
    var text := w.sessions[sid].buffer + data;
    w.(sessions := w.sessions[sid := w.sessions[sid].(buffer := Remainder(text), idleArmed := true)])
  }

  /** Before the framer's loop, with the timer restarted and the chunk
      appended, the state is `DataStart` with the whole text buffered and no
      line processed. */
  lemma DataBegin(w: World, sid: Sid, data: string)
    requires sid in w.sessions
    ensures var text := w.sessions[sid].buffer + data;
      WithBuffer(w.(sessions := w.sessions[sid := w.sessions[sid].(idleArmed := true)]), sid, text) ==
      WithBuffer(RunLines(DataStart(w, sid, data), sid, Dispatchable([])), sid, text)
  {
    assert Dispatchable([]) == [];
  }

  /** After the framer's loop, with every line taken off and the tail left
      in the buffer, the state is `DataStep`. */
  lemma DataFinish(w: World, sid: Sid, data: string)
    requires sid in w.sessions
    ensures var text := w.sessions[sid].buffer + data;
      sid in RunLines(DataStart(w, sid, data), sid, Commands(text)).sessions &&
      WithBuffer(RunLines(DataStart(w, sid, data), sid, Commands(text)), sid, Remainder(text)) ==
      DataStep(w, sid, data)
  {
    var text := w.sessions[sid].buffer + data;
    var w1 := DataStart(w, sid, data);
    var r := RunLines(w1, sid, Commands(text));
    RunKeepsLocals(w1, sid, Commands(text));
    assert r.sessions[sid].buffer == w1.sessions[sid].buffer;
    WithBufferSame(r, sid);
  }

  lemma WithBufferSame(w: World, sid: Sid)
    requires sid in w.sessions
    ensures WithBuffer(w, sid, w.sessions[sid].buffer) == w
  {
    assert w.sessions[sid := w.sessions[sid].(buffer := w.sessions[sid].buffer)] == w.sessions;
  }

  // ---------------------------------------------------------------------
  // cleanupSocket and the idle timer

  /** `cleanupSocket(sock)`. The socket leaves the Set. If it has a user
      name, that name leaves the Map, whichever socket holds it now, and
      every remaining socket is told the user disconnected. The idle timer
      is cleared. */
  function CleanupStep(w: World, sid: Sid): World
    requires sid in w.sessions
  {
    var s := w.sessions[sid];
    var w' := w.(sockets := Without(w.sockets, sid), sessions := w.sessions[sid := s.(idleArmed := false)]);
    if s.username.Some? && s.username.value != "" then
      Wrote(w'.(users := Delete(w.users, s.username.value)),
            Fanout(w'.sockets, None, Disconnected(s.username.value)))
    else w'
  }

  /** The idle timer fires: the socket is told it is disconnected for
      inactivity, and the timer no longer pends. */
  function ExpireStep(w: World, sid: Sid): World
    requires sid in w.sessions
  {
    Wrote(w, [Write(sid, IdleNotice)]).(sessions := w.sessions[sid := w.sessions[sid].(idleArmed := false)])
  }

  // ---------------------------------------------------------------------
  // What processLine leaves alone

  /** Between `w` and `r`, the Set and `nextSid` are unchanged. No socket's
      state appears or disappears, and no buffer or timer changes. Writes
      are only appended. */
  predicate LocalsKept(w: World, r: World) {
    && r.sockets == w.sockets && r.nextSid == w.nextSid
    && r.sessions.Keys == w.sessions.Keys
    && (forall k :: k in w.sessions ==>
          r.sessions[k].buffer == w.sessions[k].buffer && r.sessions[k].idleArmed == w.sessions[k].idleArmed)
    && w.log <= r.log
  }

  /** The name a line registers: LOGIN from a socket that is not logged
      in, with a non-blank name that nobody holds. */
  function Registration(w: World, sid: Sid, line: string): Option<string>
    requires sid in w.sessions
  {
    var name := Trim(Argument(line));
    if !w.sessions[sid].loggedIn && Verb(line) == "LOGIN" && name != "" && name !in Names(w.users)
    then Some(name) else None
  }

  /** Apart from the writes it appends, `processLine` either changes
      nothing or registers the name of a successful LOGIN. */
  lemma ProcessShape(w: World, sid: Sid, line: string)
    requires sid in w.sessions
    ensures var r := ProcessStep(w, sid, line);
      w.log <= r.log &&
      r.(log := w.log) == match Registration(w, sid, line)
        case Some(n) => RegisterStep(w, sid, n)
        case None => w
  {
  }

  /** `processLine` changes neither the Set nor any buffer or timer, and
      it only appends writes. */
  lemma ProcessKeepsLocals(w: World, sid: Sid, line: string)
    requires sid in w.sessions
    ensures LocalsKept(w, ProcessStep(w, sid, line))
  {
    ProcessShape(w, sid, line);
    var r := ProcessStep(w, sid, line);
    assert r.sockets == r.(log := w.log).sockets && r.sessions == r.(log := w.log).sessions;
  }

  lemma LocalsKeptTrans(a: World, b: World, c: World)
    requires LocalsKept(a, b) && LocalsKept(b, c)
    ensures LocalsKept(a, c)
  {
  }

  /** Any run of `processLine` changes neither the Set nor any buffer or
      timer, and it only appends writes. */
  lemma {:induction false} RunKeepsLocals(w: World, sid: Sid, lines: seq<string>)
    requires sid in w.sessions
    ensures LocalsKept(w, RunLines(w, sid, lines))
    decreases |lines|
  {
    if lines != [] {
      var init := lines[..|lines| - 1];
      RunKeepsLocals(w, sid, init);
      ProcessKeepsLocals(RunLines(w, sid, init), sid, lines[|lines| - 1]);
      LocalsKeptTrans(w, RunLines(w, sid, init), RunLines(w, sid, lines));
    }
  }

  /** After a `data` event, the socket's buffer holds the unterminated tail
      of the buffered text followed by the chunk, and no `\n`. Its idle
      timer pends. */
  lemma DataBuffer(w: World, sid: Sid, data: string)
    requires sid in w.sessions
    ensures sid in DataStep(w, sid, data).sessions
    ensures DataStep(w, sid, data).sessions[sid].buffer == Remainder(w.sessions[sid].buffer + data)
    ensures '\n' !in DataStep(w, sid, data).sessions[sid].buffer
    ensures DataStep(w, sid, data).sessions[sid].idleArmed
  {
    var text := w.sessions[sid].buffer + data;
    RunKeepsLocals(DataStart(w, sid, data), sid, Commands(text));
    NoNewlineInPieces(text);
  }

  /** `processLine` does not read the buffer: setting it before or after
      processing a line gives the same state. */
  lemma ProcessWithBuffer(w: World, sid: Sid, line: string, b: string)
    requires sid in w.sessions
    ensures sid in ProcessStep(w, sid, line).sessions
    ensures ProcessStep(WithBuffer(w, sid, b), sid, line) == WithBuffer(ProcessStep(w, sid, line), sid, b)
  {
    var wb := WithBuffer(w, sid, b);
    var s := w.sessions[sid];
    if !s.loggedIn && Verb(line) == "LOGIN" {
      var name := Trim(Argument(line));
      if name != "" && name !in Names(w.users) {
        assert RegisterStep(wb, sid, name) == WithBuffer(RegisterStep(w, sid, name), sid, b);
      }
    }
  }

  /** One more complete line adds its normalised form to the lines that go
      through `processLine`, unless normalising leaves it empty. */
  lemma RunStep(w: World, sid: Sid, seen: seq<string>, line: string)
    requires sid in w.sessions
    ensures sid in RunLines(w, sid, Dispatchable(seen)).sessions
    ensures RunLines(w, sid, Dispatchable(seen + [line])) ==
      if Normalize(line) == [] then RunLines(w, sid, Dispatchable(seen))
      else ProcessStep(RunLines(w, sid, Dispatchable(seen)), sid, Normalize(line))
  {
    var d := Dispatchable(seen);
    DispatchableAppend(seen, [line]);
    DispatchableOne(line);
    if Normalize(line) == [] {
      assert Dispatchable(seen + [line]) == d + [];
      assert d + [] == d;
    } else {
      assert Dispatchable(seen + [line]) == d + [Normalize(line)];
      assert (d + [Normalize(line)])[..|d|] == d;
    }
  }

  /** One turn of the framer's loop on values. Before it, the state is the
      run over the command lines taken off so far, with buffer `b0`. The
      turn sets the buffer to `b` and then handles `line`. After it, the
      state is the run over the command lines of one more line, with buffer
      `b`. */
  lemma FrameStep(w1: World, sid: Sid, seen: seq<string>, line: string, b0: string, b: string)
    requires sid in w1.sessions
    ensures var r := RunLines(w1, sid, Dispatchable(seen));
      var mid := WithBuffer(WithBuffer(r, sid, b0), sid, b);
      sid in mid.sessions &&
      (if Normalize(line) == [] then mid else ProcessStep(mid, sid, Normalize(line))) ==
        WithBuffer(RunLines(w1, sid, Dispatchable(seen + [line])), sid, b)
  {
    var r := RunLines(w1, sid, Dispatchable(seen));
    assert WithBuffer(WithBuffer(r, sid, b0), sid, b) == WithBuffer(r, sid, b);
    RunStep(w1, sid, seen, line);
    if Normalize(line) != [] {
      ProcessWithBuffer(r, sid, Normalize(line), b);
    }
  }

  /** `processLine` over two runs of lines is `processLine` over the first
      run and then over the second. */
  lemma {:induction false} RunLinesAppend(w: World, sid: Sid, xs: seq<string>, ys: seq<string>)
    requires sid in w.sessions
    ensures sid in RunLines(w, sid, xs).sessions
    ensures RunLines(w, sid, xs + ys) == RunLines(RunLines(w, sid, xs), sid, ys)
    decreases |ys|
  {
    if ys == [] {
      assert xs + ys == xs;
    } else {
      var init := ys[..|ys| - 1];
      RunLinesAppend(w, sid, xs, init);
      assert (xs + ys)[..|xs + ys| - 1] == xs + init;
      assert (xs + ys)[|xs + ys| - 1] == ys[|ys| - 1];
    }
  }

  /** Any run of `processLine` commutes with setting the buffer. */
  lemma {:induction false} RunWithBuffer(w: World, sid: Sid, lines: seq<string>, b: string)
    requires sid in w.sessions
    ensures sid in RunLines(w, sid, lines).sessions
    ensures RunLines(WithBuffer(w, sid, b), sid, lines) == WithBuffer(RunLines(w, sid, lines), sid, b)
    decreases |lines|
  {
    if lines != [] {
      var init := lines[..|lines| - 1];
      RunWithBuffer(w, sid, init, b);
      ProcessWithBuffer(RunLines(w, sid, init), sid, lines[|lines| - 1], b);
    }
  }

  /** The whole server state after a `data` event does not depend on where
      the stream was cut into chunks: chunk `a` and then chunk `b` leave the
      same state as `a + b` at once. */
  lemma DataChunks(w: World, sid: Sid, a: string, b: string)
    requires sid in w.sessions
    ensures sid in DataStep(w, sid, a).sessions
    ensures DataStep(DataStep(w, sid, a), sid, b) == DataStep(w, sid, a + b)
  {
    var t := w.sessions[sid].buffer + a;
    var w1 := DataStart(w, sid, a);
    var w' := RunLines(w1, sid, Commands(t));
    var tail := Remainder(t + b);
    var rest := Commands(Remainder(t) + b);
    ChunkBoundary(t, b);
    CommandsChunkBoundary(t, b);
    RunKeepsLocals(w1, sid, Commands(t));
    DataStartArmed(w', sid, b);
    DataStartLonger(w, sid, a, b);
    RunWithBuffer(w1, sid, Commands(t), tail);
    RunLinesAppend(WithBuffer(w1, sid, tail), sid, Commands(t), rest);
    calc {
      DataStep(w', sid, b);
      RunLines(WithBuffer(w', sid, tail), sid, rest);
      RunLines(RunLines(WithBuffer(w1, sid, tail), sid, Commands(t)), sid, rest);
      RunLines(WithBuffer(w1, sid, tail), sid, Commands(t) + rest);
      DataStep(w, sid, a + b);
    }
  }

  /** On a socket whose timer already pends, `DataStart` only sets the
      buffer. */
  lemma DataStartArmed(w: World, sid: Sid, data: string)
    requires sid in w.sessions && w.sessions[sid].idleArmed
    ensures DataStart(w, sid, data) == WithBuffer(w, sid, Remainder(w.sessions[sid].buffer + data))
  {
  }

  /** `DataStart` for a longer chunk differs only in the buffered tail. */
  lemma DataStartLonger(w: World, sid: Sid, a: string, b: string)
    requires sid in w.sessions
    ensures w.sessions[sid].buffer + (a + b) == (w.sessions[sid].buffer + a) + b
    ensures DataStart(w, sid, a + b) == WithBuffer(DataStart(w, sid, a), sid, Remainder(w.sessions[sid].buffer + a + b))
  {
  }

  // ---------------------------------------------------------------------
  // The invariant

  /** Changing a socket's buffer or timer keeps the invariant. */
  lemma LocalConsistent(w: World, sid: Sid, s: Session)
    requires Consistent(w) && sid in w.sessions
    requires s.loggedIn == w.sessions[sid].loggedIn && s.username == w.sessions[sid].username
    ensures Consistent(w.(sessions := w.sessions[sid := s]))
  {
    var r := w.(sessions := w.sessions[sid := s]);
    forall i | 0 <= i < |r.users| ensures Registered(r, r.users[i]) {
      assert Registered(w, w.users[i]);
    }
  }

  /** A new connection keeps the invariant, under an identity no socket
      had. */
  lemma ConnectConsistent(w: World)
    requires Consistent(w)
    ensures w.nextSid !in w.sessions && w.nextSid !in w.sockets
    ensures Consistent(ConnectStep(w))
  {
    var r := ConnectStep(w);
    AddKeeps(w.sockets, w.nextSid);
    forall i | 0 <= i < |r.users| ensures Registered(r, r.users[i]) {
      assert Registered(w, w.users[i]);
    }
  }

  /** Registering a free, non-blank name for a socket that is not logged in
      keeps the invariant. */
  lemma RegisterConsistent(w: World, sid: Sid, name: string)
    requires Consistent(w) && sid in w.sessions && !w.sessions[sid].loggedIn
    requires name != "" && name !in Names(w.users)
    ensures Consistent(RegisterStep(w, sid, name))
  {
    var r := RegisterStep(w, sid, name);
    PutUnique(w.users, name, sid);
    forall i | 0 <= i < |r.users| ensures Registered(r, r.users[i]) {
      PutEntries(w.users, name, sid, r.users[i]);
      if r.users[i] != Entry(name, sid) {
        var j :| 0 <= j < |w.users| && w.users[j] == r.users[i];
        assert Registered(w, w.users[j]);
      }
    }
  }

  /** `processLine` keeps the invariant. */
  lemma ProcessConsistent(w: World, sid: Sid, line: string)
    requires Consistent(w) && sid in w.sessions
    ensures Consistent(ProcessStep(w, sid, line))
  {
    var r := ProcessStep(w, sid, line);
    ProcessShape(w, sid, line);
    if Registration(w, sid, line).Some? {
      RegisterConsistent(w, sid, Registration(w, sid, line).value);
    }
    ConsistentIgnoresLog(r, w.log);
  }

  /** The invariant does not depend on the writes. */
  lemma ConsistentIgnoresLog(w: World, log: seq<Write>)
    ensures Consistent(w) <==> Consistent(w.(log := log))
  {
    var r := w.(log := log);
    assert forall e :: Registered(w, e) <==> Registered(r, e);
  }

  /** Any run of `processLine` keeps the invariant. */
  lemma {:induction false} RunConsistent(w: World, sid: Sid, lines: seq<string>)
    requires Consistent(w) && sid in w.sessions
    ensures Consistent(RunLines(w, sid, lines))
    decreases |lines|
  {
    if lines != [] {
      RunConsistent(w, sid, lines[..|lines| - 1]);
      ProcessConsistent(RunLines(w, sid, lines[..|lines| - 1]), sid, lines[|lines| - 1]);
    }
  }

  /** The `data` handler keeps the invariant. */
  lemma DataConsistent(w: World, sid: Sid, data: string)
    requires Consistent(w) && sid in w.sessions
    ensures Consistent(DataStep(w, sid, data))
  {
    var text := w.sessions[sid].buffer + data;
    LocalConsistent(w, sid, w.sessions[sid].(buffer := Remainder(text), idleArmed := true));
    RunConsistent(DataStart(w, sid, data), sid, Commands(text));
  }

  /** `cleanupSocket` keeps the invariant. */
  lemma CleanupConsistent(w: World, sid: Sid)
    requires Consistent(w) && sid in w.sessions
    ensures Consistent(CleanupStep(w, sid))
  {
    var s := w.sessions[sid];
    LocalConsistent(w, sid, s.(idleArmed := false));
    var w' := w.(sockets := Without(w.sockets, sid), sessions := w.sessions[sid := s.(idleArmed := false)]);
    WithoutNoDup(w.sockets, sid);
    forall x | x in w'.sockets ensures x in w'.sessions {
      WithoutMembers(w.sockets, sid, x);
    }
    assert Consistent(w');
    if s.username.Some? && s.username.value != "" {
      var n := s.username.value;
      var r := w'.(users := Delete(w.users, n));
      DeleteUnique(w.users, n);
      forall i | 0 <= i < |r.users| ensures Registered(r, r.users[i]) {
        DeleteEntries(w.users, n, r.users[i]);
        var j :| 0 <= j < |w.users| && w.users[j] == r.users[i];
        assert Registered(w', w.users[j]);
      }
    }
  }

  /** The idle timer's firing keeps the invariant. */
  lemma ExpireConsistent(w: World, sid: Sid)
    requires Consistent(w) && sid in w.sessions
    ensures Consistent(ExpireStep(w, sid))
  {
    LocalConsistent(w, sid, w.sessions[sid].(idleArmed := false));
  }

  // ---------------------------------------------------------------------
  // Properties of the handlers

  /** A successful LOGIN maps the name to the socket, and every other name
      to what it mapped to before. */
  lemma LoginRegisters(w: World, sid: Sid, line: string, other: string)
    requires sid in w.sessions && !w.sessions[sid].loggedIn
    requires Verb(line) == "LOGIN" && Trim(Argument(line)) != "" && Trim(Argument(line)) !in Names(w.users)
    ensures Lookup(ProcessStep(w, sid, line).users, other) ==
      if other == Trim(Argument(line)) then Some(sid) else Lookup(w.users, other)
    ensures ProcessStep(w, sid, line).sessions[sid].username == Some(Trim(Argument(line)))
  {
    PutLookup(w.users, Trim(Argument(line)), sid, other);
  }

  /** Only a LOGIN from a socket that is not logged in changes the Map or
      any socket's state, and then only that socket's login state. Every
      other line only writes. */
  lemma OnlyLoginRegisters(w: World, sid: Sid, line: string)
    requires sid in w.sessions
    ensures var r := ProcessStep(w, sid, line);
      !(!w.sessions[sid].loggedIn && Verb(line) == "LOGIN") ==> r.users == w.users && r.sessions == w.sessions
    ensures var r := ProcessStep(w, sid, line);
      r.sessions == w.sessions ||
      r.sessions == w.sessions[sid := w.sessions[sid].(loggedIn := true, username := r.sessions[sid].username)]
  {
    ProcessShape(w, sid, line);
    var r := ProcessStep(w, sid, line);
    assert r.users == r.(log := w.log).users && r.sessions == r.(log := w.log).sessions;
  }

  /** Under the invariant a logged-in socket is shown by its user name, so
      `MSG` and `DM` lines never carry `null`. */
  lemma ShownLoggedIn(w: World, sid: Sid)
    requires Consistent(w) && sid in w.sessions && w.sessions[sid].loggedIn
    ensures w.sessions[sid].username.Some?
    ensures Shown(w.sessions[sid].username) == w.sessions[sid].username.value
    ensures w.sessions[sid].username.value != ""
  {
    assert SessionOk(w.sessions[sid]);
  }

  /** What each client receives from a LOGIN before login. A blank name
      gets `ERR invalid-username` and a taken one `ERR username-taken`, to
      the sender only. Otherwise the sender gets `OK` and every other socket
      of the Set gets `INFO <name> connected`. */
  lemma LoginInbox(w: World, sid: Sid, line: string, s: Sid)
    requires sid in w.sessions && NoDup(w.sockets)
    ensures var name := Trim(Argument(line));
      Inbox(LoginStep(w, sid, line).log, s) == Inbox(w.log, s) +
        if name == "" then (if s == sid then [ErrInvalidUsername] else [])
        else if name in Names(w.users) then (if s == sid then [ErrUsernameTaken] else [])
        else (if s == sid then [Ok] else []) + (if s in w.sockets && s != sid then [Connected(name)] else [])
  {
    var name := Trim(Argument(line));
    if name == "" {
      InboxSnoc(w.log, Write(sid, ErrInvalidUsername), s);
    } else if name in Names(w.users) {
      InboxSnoc(w.log, Write(sid, ErrUsernameTaken), s);
    } else {
      assert LoginStep(w, sid, line).log == w.log + ([Write(sid, Ok)] + Fanout(w.sockets, Some(sid), Connected(name)));
      WelcomedInbox(w.log, w.sockets, sid, name, s);
    }
  }

  /** The writes of a successful LOGIN: `OK` to the sender, then
      `INFO <name> connected` to every other socket of the Set. */
  lemma WelcomedInbox(log: seq<Write>, socks: seq<Sid>, sid: Sid, name: string, s: Sid)
    requires NoDup(socks)
    ensures Inbox(log + ([Write(sid, Ok)] + Fanout(socks, Some(sid), Connected(name))), s) == Inbox(log, s) +
      ((if s == sid then [Ok] else []) + (if s in socks && s != sid then [Connected(name)] else []))
  {
    var fan := Fanout(socks, Some(sid), Connected(name));
    assert log + ([Write(sid, Ok)] + fan) == (log + [Write(sid, Ok)]) + fan;
    InboxAppend(log + [Write(sid, Ok)], fan, s);
    InboxSnoc(log, Write(sid, Ok), s);
    FanoutInbox(socks, Some(sid), Connected(name), s);
  }

  /** What each client receives from a MSG: nothing for an empty text;
      otherwise every socket of the Set, the sender's included, gets one
      `MSG <user> <clean text>`, and nobody else gets anything. */
  lemma ChatInbox(w: World, sid: Sid, line: string, s: Sid)
    requires sid in w.sessions && NoDup(w.sockets)
    ensures var text := Trim(Argument(line));
      Inbox(ChatStep(w, sid, line).log, s) == Inbox(w.log, s) +
        if text != "" && s in w.sockets then [ChatLine(Shown(w.sessions[sid].username), Clean(text))] else []
  {
    var text := Trim(Argument(line));
    if text == "" {
      assert w.log == w.log + [];
    } else {
      var msg := ChatLine(Shown(w.sessions[sid].username), Clean(text));
      InboxAppend(w.log, Fanout(w.sockets, None, msg), s);
      FanoutInbox(w.sockets, None, msg, s);
    }
  }

  /** What each client receives from a WHO: the asking socket gets one
      `USER <name>` per key of the Map, in its order; nobody else gets
      anything. */
  lemma WhoInbox(w: World, sid: Sid, s: Sid)
    ensures Inbox(WhoStep(w, sid).log, s) == Inbox(w.log, s) + if s == sid then UserLines(Names(w.users)) else []
  {
    InboxAppend(w.log, UserList(sid, Names(w.users)), s);
    UserListInbox(sid, Names(w.users), s);
  }

  /** What each client receives from a DM. A missing target or an empty
      text gets `ERR invalid-dm` and an unregistered target
      `ERR user-not-found`, to the sender only. Otherwise the target's
      socket gets `DM <from> <clean text>`, the sender gets
      `DM <from> -> <target> <clean text>`, and nobody else gets anything. */
  lemma DmInbox(w: World, sid: Sid, line: string, s: Sid)
    requires sid in w.sessions
    ensures var target := DmTarget(line);
      var text := Trim(DmText(line));
      var from := Shown(w.sessions[sid].username);
      Inbox(DmStep(w, sid, line).log, s) == Inbox(w.log, s) +
        if target == "" || text == "" then (if s == sid then [ErrInvalidDm] else [])
        else if Lookup(w.users, target).None? then (if s == sid then [ErrUserNotFound] else [])
        else (if s == Lookup(w.users, target).value then [DmLine(from, Clean(text))] else []) +
             (if s == sid then [DmEcho(from, target, Clean(text))] else [])
  {
    var target := DmTarget(line);
    var text := Trim(DmText(line));
    if target == "" || text == "" {
      InboxSnoc(w.log, Write(sid, ErrInvalidDm), s);
    } else if Lookup(w.users, target).None? {
      InboxSnoc(w.log, Write(sid, ErrUserNotFound), s);
    } else {
      var from := Shown(w.sessions[sid].username);
      var a := Write(Lookup(w.users, target).value, DmLine(from, Clean(text)));
      var b := Write(sid, DmEcho(from, target, Clean(text)));
      assert w.log + [a, b] == (w.log + [a]) + [b];
      InboxSnoc(w.log + [a], b, s);
      InboxSnoc(w.log, a, s);
    }
  }

  /** The socket a DM is delivered to is the one logged in under the target
      name. */
  lemma DmReachesTarget(w: World, target: string)
    requires Consistent(w)
    ensures Lookup(w.users, target).Some? ==>
      var t := Lookup(w.users, target).value;
      t in w.sessions && w.sessions[t].loggedIn && w.sessions[t].username == Some(target)
  {
    LookupFinds(w.users, target);
    if Lookup(w.users, target).Some? {
      var i :| 0 <= i < |w.users| && w.users[i] == Entry(target, Lookup(w.users, target).value);
      assert Registered(w, w.users[i]);
    }
  }

  /** Before login, a line whose command word is not LOGIN gets exactly
      one reply, to the sender: `PONG` for PING and `ERR not-logged-in`
      otherwise. Nothing else changes. */
  lemma BeforeLoginReply(w: World, sid: Sid, line: string, s: Sid)
    requires sid in w.sessions && !w.sessions[sid].loggedIn && Verb(line) != "LOGIN"
    ensures ProcessStep(w, sid, line).(log := w.log) == w
    ensures Inbox(ProcessStep(w, sid, line).log, s) == Inbox(w.log, s) +
      if s != sid then [] else if Verb(line) == "PING" then [Pong] else [ErrNotLoggedIn]
  {
    InboxSnoc(w.log, Write(sid, if Verb(line) == "PING" then Pong else ErrNotLoggedIn), s);
  }

  /** After login, a line whose command word is none of MSG, WHO and DM gets
      exactly one reply, to the sender: `PONG` for PING and
      `ERR unknown-command` otherwise. Nothing else changes. */
  lemma AfterLoginReply(w: World, sid: Sid, line: string, s: Sid)
    requires sid in w.sessions && w.sessions[sid].loggedIn && Verb(line) !in {"MSG", "WHO", "DM"}
    ensures ProcessStep(w, sid, line).(log := w.log) == w
    ensures Inbox(ProcessStep(w, sid, line).log, s) == Inbox(w.log, s) +
      if s != sid then [] else if Verb(line) == "PING" then [Pong] else [ErrUnknownCommand]
  {
    InboxSnoc(w.log, Write(sid, if Verb(line) == "PING" then Pong else ErrUnknownCommand), s);
  }

  /** What each client receives from `cleanupSocket`: if the socket has a
      user name, every other socket of the Set gets
      `INFO <name> disconnected`; otherwise nobody gets anything. */
  lemma CleanupInbox(w: World, sid: Sid, s: Sid)
    requires sid in w.sessions && NoDup(w.sockets)
    ensures var u := w.sessions[sid].username;
      Inbox(CleanupStep(w, sid).log, s) == Inbox(w.log, s) +
        if u.Some? && u.value != "" && s in w.sockets && s != sid then [Disconnected(u.value)] else []
  {
    var u := w.sessions[sid].username;
    if u.Some? && u.value != "" {
      var rest := Without(w.sockets, sid);
      WithoutNoDup(w.sockets, sid);
      WithoutMembers(w.sockets, sid, s);
      InboxAppend(w.log, Fanout(rest, None, Disconnected(u.value)), s);
      FanoutInbox(rest, None, Disconnected(u.value), s);
    } else {
      assert w.log == w.log + [];
    }
  }

  /** `cleanupSocket` takes the socket out of the Set and, if it has a user
      name, takes that name out of the Map, keeping every other member and
      key in order. */
  lemma CleanupRemoves(w: World, sid: Sid)
    requires sid in w.sessions
    ensures var r := CleanupStep(w, sid);
      forall x :: x in r.sockets <==> x in w.sockets && x != sid
    ensures var u := w.sessions[sid].username;
      Names(CleanupStep(w, sid).users) ==
        if u.Some? && u.value != "" then Without(Names(w.users), u.value) else Names(w.users)
    ensures var u := w.sessions[sid].username;
      u.Some? && u.value != "" ==> u.value !in Names(CleanupStep(w, sid).users)
  {
    var r := CleanupStep(w, sid);
    forall x | true ensures x in r.sockets <==> x in w.sockets && x != sid {
      WithoutMembers(w.sockets, sid, x);
    }
    var u := w.sessions[sid].username;
    if u.Some? && u.value != "" {
      DeleteNames(w.users, u.value);
      WithoutMembers(Names(w.users), u.value, u.value);
    }
  }

  /** A second `cleanupSocket` of the same socket deletes nothing more from
      the Set or the Map and changes no socket's state. But if the socket
      had a user name, the remaining sockets are told again that the user
      disconnected. */
  lemma CleanupTwice(w: World, sid: Sid)
    requires sid in w.sessions
    ensures var once := CleanupStep(w, sid);
      var u := w.sessions[sid].username;
      CleanupStep(once, sid) ==
        Wrote(once, if u.Some? && u.value != "" then Fanout(once.sockets, None, Disconnected(u.value)) else [])
  {
    var once := CleanupStep(w, sid);
    var s := w.sessions[sid];
    WithoutTwice(w.sockets, sid);
    assert once.sessions[sid := once.sessions[sid].(idleArmed := false)] == once.sessions;
    if s.username.Some? && s.username.value != "" {
      DeleteTwice(w.users, s.username.value);
    } else {
      assert once.log + [] == once.log;
    }
  }
}
