/** The chat server's event handlers (index.js:17-166):
    - connection set-up;
    - the `data` handler with its line framer, and `processLine`;
    - `safeWrite` and `broadcast`;
    - `cleanupSocket` and the firing of the idle timer.
    The server's state is one object whose fields the handlers update in
    place. Every handler is proved to leave the state its function in
    `Handlers` describes. */
module Server {
  import opened Text
  import opened Framing
  import opened Registry
  import opened Delivery
  import opened Protocol
  import opened Handlers

  class ChatServer {
    /** The `sockets` Set, in insertion order. */
    var sockets: seq<Sid>
    /** The `users` Map, in insertion order. */
    var users: seq<Entry>
    /** Every socket that ever connected, with its handler state. */
    var sessions: map<Sid, Session>
    /** Every `safeWrite`, in order. */
    var log: seq<Write>
    /** The identity the next connection gets. */
    var nextSid: nat

    /** The object's fields as one value. */
    ghost function State(): World
      reads this
    {
      World(sockets, users, sessions, log, nextSid)
    }

    ghost predicate Valid()
      reads this
    {
      Consistent(State())
    }

    /** The handler wrote `w` and changed nothing else. */
    twostate predicate OnlyWrote(w: seq<Write>)
      reads this
    {
      State() == Wrote(old(State()), w)
    }

    /** A server with no connection yet. */
    constructor ()
      ensures Valid()
      ensures State() == World([], [], map[], [], 0)
    {
      sockets := [];
      users := [];
      sessions := map[];
      log := [];
      nextSid := 0;
    }

    /** `safeWrite(sock, text)`: the line goes to `sock`. */
    method SafeWrite(to: Sid, text: string)
      modifies this
      ensures OnlyWrote([Write(to, text)])
    {
      log := log + [Write(to, text)];
    }

    /** `broadcast(message, exceptSocket)`: the message goes to every socket
        of the Set, in the Set's order, except `except`. */
    method Broadcast(msg: string, except: Option<Sid>)
      modifies this
      ensures OnlyWrote(Fanout(old(sockets), except, msg))
    {
      var i := 0;
      while i < |sockets|
        invariant 0 <= i <= |sockets|
        invariant OnlyWrote(Fanout(sockets[..i], except, msg))
      {
        var s := sockets[i];
        if Some(s) != except {
          SafeWrite(s, msg);
        }
        assert sockets[..i + 1][..i] == sockets[..i];
        i := i + 1;
      }
      assert sockets[..|sockets|] == sockets;
    }

    /** The `connection` handler. */
    method Connect() returns (sid: Sid)
      requires Valid()
      modifies this
      ensures Valid()
      ensures sid == old(nextSid) && sid !in old(sessions)
      ensures State() == ConnectStep(old(State()))
    {
      ConnectConsistent(State());
      sid := nextSid;
      nextSid := nextSid + 1;
      sockets := Add(sockets, sid);
      sessions := sessions[sid := Session("", false, None, true)];
      SafeWrite(sid, Welcome);
    }

    /** LOGIN from a socket that is not logged in. */
    method Login(sid: Sid, line: string)
      requires sid in sessions
      modifies this
      ensures State() == LoginStep(old(State()), sid, line)
    {
      var name := Trim(Argument(line));
      if name == "" {
        SafeWrite(sid, ErrInvalidUsername);
        return;
      }
      if name in Names(users) {
        SafeWrite(sid, ErrUsernameTaken);
        return;
      }
      Register(sid, name);
      SafeWrite(sid, Ok);
      Broadcast(Connected(name), Some(sid));
    }

    /** `sock._loggedIn = true; sock._username = username;
        users.set(username, sock)`. */
    method Register(sid: Sid, name: string)
      requires sid in sessions
      modifies this
      ensures State() == RegisterStep(old(State()), sid, name)
    {
      sessions := sessions[sid := sessions[sid].(loggedIn := true, username := Some(name))];
      users := Put(users, name, sid);
    }

    /** MSG from a logged-in socket. */
    method Chat(sid: Sid, line: string)
      requires sid in sessions
      modifies this
      ensures State() == ChatStep(old(State()), sid, line)
    {
      var text := Trim(Argument(line));
      if text == "" {
        return;
      }
      var cleanText := Clean(text);
      Broadcast(ChatLine(Shown(sessions[sid].username), cleanText), None);
    }

    /** WHO: a `USER` line for every key of the `users` Map, in its order. */
    method ListUsers(sid: Sid)
      modifies this
      ensures State() == WhoStep(old(State()), sid)
    {
      var i := 0;
      while i < |users|
        invariant 0 <= i <= |users|
        invariant OnlyWrote(UserList(sid, Names(users)[..i]))
      {
        SafeWrite(sid, "USER " + users[i].name);
        assert Names(users)[..i + 1][..i] == Names(users)[..i];
        i := i + 1;
      }
      assert Names(users)[..|users|] == Names(users);
    }

    /** DM from a logged-in socket. */
    method DirectMessage(sid: Sid, line: string)
      requires sid in sessions
      modifies this
      ensures State() == DmStep(old(State()), sid, line)
    {
      var target := DmTarget(line);
      if target == "" {
        SafeWrite(sid, ErrInvalidDm);
        return;
      }
      var text := Trim(DmText(line));
      if text == "" {
        SafeWrite(sid, ErrInvalidDm);
        return;
      }
      var cleanText := Clean(text);
      var targetSock := Lookup(users, target);
      if targetSock.None? {
        SafeWrite(sid, ErrUserNotFound);
        return;
      }
      var from := Shown(sessions[sid].username);
      SafeWrite(targetSock.value, DmLine(from, cleanText));
      SafeWrite(sid, DmEcho(from, target, cleanText));
    }

    /** `processLine(sock, line)` on a socket that is not logged in. */
    method ProcessBeforeLogin(sid: Sid, line: string)
      requires sid in sessions
      modifies this
      ensures State() == BeforeLoginStep(old(State()), sid, line)
    {
      var cmd := Verb(line);
      if cmd == "LOGIN" {
        Login(sid, line);
      } else if cmd == "PING" {
        SafeWrite(sid, Pong);
      } else {
        SafeWrite(sid, ErrNotLoggedIn);
      }
    }

    /** `processLine(sock, line)` on a logged-in socket. */
    method ProcessAfterLogin(sid: Sid, line: string)
      requires sid in sessions
      modifies this
      ensures State() == AfterLoginStep(old(State()), sid, line)
    {
      var cmd := Verb(line);
      if cmd == "MSG" {
        Chat(sid, line);
      } else if cmd == "WHO" {
        ListUsers(sid);
      } else if cmd == "DM" {
        DirectMessage(sid, line);
      } else if cmd == "PING" {
        SafeWrite(sid, Pong);
      } else {
        SafeWrite(sid, ErrUnknownCommand);
      }
    }

    /** `processLine(sock, line)`: the login flag selects the commands
        served. */
    method ProcessLine(sid: Sid, line: string)
      requires sid in sessions
      modifies this
      ensures State() == ProcessStep(old(State()), sid, line)
    {
      if !sessions[sid].loggedIn {
        ProcessBeforeLogin(sid, line);
      } else {
        ProcessAfterLogin(sid, line);
      }
    }

    /** The `data` handler: the idle timer restarts, the chunk is appended
        to the buffer, and each complete line is taken off the buffer,
        normalised and, unless empty, passed to `processLine`. */
    method Receive(sid: Sid, data: string)
      requires Valid() && sid in sessions
      modifies this
      ensures Valid()
      ensures State() == DataStep(old(State()), sid, data)
      ensures sid in sessions && sessions[sid].buffer == Remainder(old(sessions[sid].buffer) + data)
      ensures '\n' !in sessions[sid].buffer && sessions[sid].idleArmed
    {
      ghost var w0 := State();
      ghost var text := sessions[sid].buffer + data;
      ghost var w1 := DataStart(w0, sid, data);
      ResetIdleTimer(sid);
      AppendToBuffer(sid, data);
      DataBegin(w0, sid, data);
      ghost var seen: seq<string> := [];
      while IndexOf(sessions[sid].buffer, '\n') != -1
        invariant sid in sessions
        invariant RawLines(text) == seen + RawLines(sessions[sid].buffer)
        invariant Remainder(text) == Remainder(sessions[sid].buffer)
        invariant sid in RunLines(w1, sid, Dispatchable(seen)).sessions
        invariant State() == WithBuffer(RunLines(w1, sid, Dispatchable(seen)), sid, sessions[sid].buffer)
        decreases |sessions[sid].buffer|
      {
        seen := FrameNextLine(sid, text, w1, seen);
      }
      FramedAll(text, seen, sessions[sid].buffer);
      DataFinish(w0, sid, data);
      DataConsistent(w0, sid, data);
      DataBuffer(w0, sid, data);
    }

    /** `resetIdleTimer(sock)`: the socket's idle timer is (re)started. */
    method ResetIdleTimer(sid: Sid)
      requires sid in sessions
      modifies this
      ensures State() == old(State()).(sessions := old(sessions)[sid := old(sessions)[sid].(idleArmed := true)])
    {
      sessions := sessions[sid := sessions[sid].(idleArmed := true)];
    }

    /** `sock._buffer += data`. */
    method AppendToBuffer(sid: Sid, data: string)
      requires sid in sessions
      modifies this
      ensures State() == WithBuffer(old(State()), sid, old(sessions)[sid].buffer + data)
    {
      sessions := sessions[sid := sessions[sid].(buffer := sessions[sid].buffer + data)];
    }

    /** One turn of the framer's loop: the first complete line is taken off
        the buffer and handled. Of the lines of `text`, those taken off so
        far grow by that line, and the state is `processLine` run on the
        command lines among them, starting from `w1`. */
    method FrameNextLine(sid: Sid, ghost text: string, ghost w1: World, ghost seen: seq<string>)
      returns (ghost seen': seq<string>)
      requires sid in sessions && sid in w1.sessions && IndexOf(sessions[sid].buffer, '\n') != -1
      requires RawLines(text) == seen + RawLines(sessions[sid].buffer)
      requires Remainder(text) == Remainder(sessions[sid].buffer)
      requires sid in RunLines(w1, sid, Dispatchable(seen)).sessions
      requires State() == WithBuffer(RunLines(w1, sid, Dispatchable(seen)), sid, sessions[sid].buffer)
      modifies this
      ensures sid in sessions
      ensures RawLines(text) == seen' + RawLines(sessions[sid].buffer)
      ensures Remainder(text) == Remainder(sessions[sid].buffer)
      ensures sid in RunLines(w1, sid, Dispatchable(seen')).sessions
      ensures State() == WithBuffer(RunLines(w1, sid, Dispatchable(seen')), sid, sessions[sid].buffer)
      ensures |sessions[sid].buffer| < |old(sessions[sid].buffer)|
    {
      ghost var b0 := sessions[sid].buffer;
      var line := NextLine(sid);
      SnocAssoc(seen, line, RawLines(sessions[sid].buffer));
      FrameStep(w1, sid, seen, line, b0, sessions[sid].buffer);
      HandleLine(sid, line);
      seen' := seen + [line];
    }

    /** The rest of a turn of the framer's loop: the line is normalised and,
        unless that leaves it empty, passed to `processLine`. An empty line
        changes nothing. */
    method HandleLine(sid: Sid, line: string)
      requires sid in sessions
      modifies this
      ensures State() == if Normalize(line) == [] then old(State()) else ProcessStep(old(State()), sid, Normalize(line))
    {
      var normalized := Normalize(line);
      if |normalized| == 0 {
        return;
      }
      ProcessLine(sid, normalized);
    }

    /** One turn of the framer's loop: the text before the first `\n` of the
        buffer is taken off, and the buffer keeps what follows that `\n`.
        The buffer's complete lines lose the first one, and its tail stays. */
    method NextLine(sid: Sid) returns (line: string)
      requires sid in sessions && IndexOf(sessions[sid].buffer, '\n') != -1
      modifies this
      ensures sid in sessions
      ensures RawLines(old(sessions[sid].buffer)) == [line] + RawLines(sessions[sid].buffer)
      ensures Remainder(old(sessions[sid].buffer)) == Remainder(sessions[sid].buffer)
      ensures |sessions[sid].buffer| < |old(sessions[sid].buffer)|
      ensures State() == WithBuffer(old(State()), sid, sessions[sid].buffer)
    {
      var buffer := sessions[sid].buffer;
      var idx := IndexOf(buffer, '\n');
      line := buffer[..idx];
      sessions := sessions[sid := sessions[sid].(buffer := buffer[idx + 1..])];
      FirstLine(buffer);
    }

    /** `cleanupSocket(sock)`. Nothing stops it from running twice. */
    method Cleanup(sid: Sid)
      requires Valid() && sid in sessions
      modifies this
      ensures Valid()
      ensures State() == CleanupStep(old(State()), sid)
    {
      CleanupConsistent(State(), sid);
      RemoveSocket(sid);
      var username := sessions[sid].username;
      if username.Some? && username.value != "" {
        Unregister(username.value);
        Broadcast(Disconnected(username.value), None);
      }
      DisarmIdleTimer(sid);
    }

    /** `sockets.delete(sock)`. */
    method RemoveSocket(sid: Sid)
      modifies this
      ensures State() == old(State()).(sockets := Without(old(sockets), sid))
    {
      sockets := Without(sockets, sid);
    }

    /** `users.delete(name)`. */
    method Unregister(name: string)
      modifies this
      ensures State() == old(State()).(users := Delete(old(users), name))
    {
      users := Delete(users, name);
    }

    /** The socket's idle timer no longer pends: cleared by `clearTimeout`,
        or fired. */
    method DisarmIdleTimer(sid: Sid)
      requires sid in sessions
      modifies this
      ensures State() == old(State()).(sessions := old(sessions)[sid := old(sessions)[sid].(idleArmed := false)])
    {
      sessions := sessions[sid := sessions[sid].(idleArmed := false)];
    }

    /** The `end` event followed by the `close` event, both of which run
        `cleanupSocket` (`Handlers.CleanupTwice` says what the second run
        does). */
    method EndThenClose(sid: Sid)
      requires Valid() && sid in sessions
      modifies this
      ensures Valid()
      ensures State() == CleanupStep(CleanupStep(old(State()), sid), sid)
    {
      Cleanup(sid);
      Cleanup(sid);
    }

    /** The idle timer fires: the socket is told it is disconnected for
        inactivity. `sock.end()` only half-closes the socket; the `end` and
        `close` events follow once the peer closes its side, and each is a
        separate call to `Cleanup`, at a time the caller chooses. */
    method IdleExpire(sid: Sid)
      requires Valid() && sid in sessions && sessions[sid].idleArmed
      modifies this
      ensures Valid()
      ensures State() == ExpireStep(old(State()), sid)
    {
      ExpireConsistent(State(), sid);
      SafeWrite(sid, IdleNotice);
      DisarmIdleTimer(sid);
    }
  }

  lemma SnocAssoc<T>(xs: seq<T>, x: T, ys: seq<T>)
    ensures xs + ([x] + ys) == (xs + [x]) + ys
  {
  }
}
