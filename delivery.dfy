/** What the server writes to its clients: `safeWrite`, `broadcast` and the
    `USER` listing of WHO (index.js:21-35, 137-140). Every write is kept in
    one log, in the order the server performs them; the log seen from one
    client is that client's inbox. */
module Delivery {
  import opened Registry

  /** One `safeWrite(sock, text)`: the line `text`, followed on the wire by
      a `\n`, written to socket `to`. */
  datatype Write = Write(to: Sid, text: string)

  /** The lines written to client `s`, in the order they were written. */
  function Inbox(log: seq<Write>, s: Sid): seq<string> {
    if log == [] then []
    else
      var w := log[|log| - 1];
      Inbox(log[..|log| - 1], s) + (if w.to == s then [w.text] else [])
  }

  /** A client's inbox over two stretches of the log is its inbox over the
      first followed by its inbox over the second. */
  lemma {:induction false} InboxAppend(a: seq<Write>, b: seq<Write>, s: Sid)
    ensures Inbox(a + b, s) == Inbox(a, s) + Inbox(b, s)
    decreases |b|
  {
    if b == [] {
      assert a + b == a;
    } else {
      var w := b[|b| - 1];
      var b' := b[..|b| - 1];
      assert (a + b)[..|a + b| - 1] == a + b';
      InboxAppend(a, b', s);
    }
  }

  /** One more write adds its line to its addressee's inbox and to no
      other. */
  lemma InboxSnoc(log: seq<Write>, x: Write, s: Sid)
    ensures Inbox(log + [x], s) == Inbox(log, s) + (if x.to == s then [x.text] else [])
  {
    assert (log + [x])[..|log|] == log;
  }

  /** `broadcast(msg, except)`: one write of `msg` to each socket of the
      Set, in the Set's order, skipping `except`. */
  function Fanout(socks: seq<Sid>, except: Option<Sid>, msg: string): (r: seq<Write>)
    ensures forall k :: 0 <= k < |r| ==> r[k].text == msg && Some(r[k].to) != except
  {
    if socks == [] then []
    else
      var s := socks[|socks| - 1];
      Fanout(socks[..|socks| - 1], except, msg) + (if Some(s) != except then [Write(s, msg)] else [])
  }

  /** Over a Set of distinct sockets, a broadcast gives every socket but the
      excepted one exactly one copy of the message, and nobody else
      anything. */
  lemma {:induction false} FanoutInbox(socks: seq<Sid>, except: Option<Sid>, msg: string, s: Sid)
    requires NoDup(socks)
    ensures Inbox(Fanout(socks, except, msg), s) ==
      if s in socks && Some(s) != except then [msg] else []
    decreases |socks|
  {
    if socks != [] {
      var last := socks[|socks| - 1];
      var init := socks[..|socks| - 1];
      assert NoDup(init);
      assert socks == init + [last];
      FanoutInbox(init, except, msg, s);
      var tail := if Some(last) != except then [Write(last, msg)] else [];
      InboxAppend(Fanout(init, except, msg), tail, s);
      if tail != [] {
        assert Inbox(tail, s) == Inbox([], s) + (if last == s then [msg] else []);
      }
      assert last !in init;
    }
  }

  /** The WHO reply: `USER <name>` to socket `to` for each key of the
      `users` Map, in the Map's order. */
  function UserList(to: Sid, names: seq<string>): seq<Write> {
    if names == [] then []
    else UserList(to, names[..|names| - 1]) + [Write(to, "USER " + names[|names| - 1])]
  }

  /** The lines of a WHO reply, one per name. */
  function UserLines(names: seq<string>): (r: seq<string>)
    ensures |r| == |names|
  {
    seq(|names|, i requires 0 <= i < |names| => "USER " + names[i])
  }

  /** The WHO reply reaches only the asking client, which receives one
      `USER` line per registered name, in the Map's order. */
  lemma {:induction false} UserListInbox(to: Sid, names: seq<string>, s: Sid)
    ensures Inbox(UserList(to, names), s) == if s == to then UserLines(names) else []
    decreases |names|
  {
    if names != [] {
      var init := names[..|names| - 1];
      UserListInbox(to, init, s);
      InboxSnoc(UserList(to, init), Write(to, "USER " + names[|names| - 1]), s);
      if s == to {
        assert UserLines(names) == UserLines(init) + ["USER " + names[|names| - 1]];
      }
    }
  }
}
