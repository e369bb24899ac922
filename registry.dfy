/** The server's two registries (index.js:16-19): the `users` Map from user
    name to socket, and the `sockets` Set of connected sockets. Both are
    kept as sequences in insertion order, which is the order in which a
    JavaScript Map or Set is iterated. */
module Registry {
  /** A socket, identified by the order in which it connected. */
  type Sid = nat

  datatype Option<T> = None | Some(value: T)

  /** One entry of the `users` Map: a user name and the socket logged in
      under it. */
  datatype Entry = Entry(name: string, sock: Sid)

  predicate NoDup<T(==)>(xs: seq<T>) {
    forall i, j :: 0 <= i < j < |xs| ==> xs[i] != xs[j]
  }

  /** The Map's keys in iteration order (`users.keys()`). */
  function Names(users: seq<Entry>): (r: seq<string>)
    ensures |r| == |users|
    ensures forall i :: 0 <= i < |users| ==> r[i] == users[i].name
  {
    seq(|users|, i requires 0 <= i < |users| => users[i].name)
  }

  /** A Map holds each key once. */
  predicate UniqueNames(users: seq<Entry>) {
    NoDup(Names(users))
  }

  // ---------------------------------------------------------------------
  // The `users` Map

  /** `users.get(name)`: the socket registered under `name`, if any. */
  function Lookup(users: seq<Entry>, name: string): Option<Sid> {
    if users == [] then None
    else if users[0].name == name then Some(users[0].sock)
    else Lookup(users[1..], name)
  }

  /** `users.get` misses exactly the names that are not keys, and what it
      finds is an entry of the Map. */
  lemma {:induction false} LookupFinds(users: seq<Entry>, name: string)
    ensures Lookup(users, name).None? <==> name !in Names(users)
    ensures Lookup(users, name).Some? ==> Entry(name, Lookup(users, name).value) in users
    decreases |users|
  {
    if users != [] {
      LookupFinds(users[1..], name);
      assert Names(users) == [users[0].name] + Names(users[1..]);
    }
  }

  /** With unique keys, `users.get` returns the socket of the one entry
      holding that name. */
  lemma {:induction false} LookupEntry(users: seq<Entry>, i: nat)
    requires UniqueNames(users) && i < |users|
    ensures Lookup(users, users[i].name) == Some(users[i].sock)
    decreases |users|
  {
    if i > 0 {
      assert Names(users)[0] != Names(users)[i];
      assert UniqueNames(users[1..]) by {
        assert Names(users[1..]) == Names(users)[1..];
      }
      LookupEntry(users[1..], i - 1);
    }
  }

  /** `users.set(name, sock)`: an existing key keeps its place and gets the
      new socket; a new key goes to the end. */
  function Put(users: seq<Entry>, name: string, sock: Sid): seq<Entry> {
    if users == [] then [Entry(name, sock)]
    else if users[0].name == name then [Entry(name, sock)] + users[1..]
    else [users[0]] + Put(users[1..], name, sock)
  }

  /** After `users.set(name, sock)`, `get(name)` gives `sock` and every
      other name gives what it gave before. */
  lemma {:induction false} PutLookup(users: seq<Entry>, name: string, sock: Sid, other: string)
    ensures Lookup(Put(users, name, sock), other) ==
      if other == name then Some(sock) else Lookup(users, other)
    decreases |users|
  {
    if users != [] && users[0].name != name {
      PutLookup(users[1..], name, sock, other);
    }
  }

  /** `users.set` appends a new key to the iteration order and leaves the
      order alone when the key is present. */
  lemma {:induction false} PutNames(users: seq<Entry>, name: string, sock: Sid)
    ensures Names(Put(users, name, sock)) ==
      if name in Names(users) then Names(users) else Names(users) + [name]
    decreases |users|
  {
    if users != [] {
      NamesCons(users[0], users[1..]);
      assert users == [users[0]] + users[1..];
      if users[0].name == name {
        NamesCons(Entry(name, sock), users[1..]);
      } else {
        PutNames(users[1..], name, sock);
        NamesCons(users[0], Put(users[1..], name, sock));
      }
    }
  }

  lemma NamesCons(e: Entry, users: seq<Entry>)
    ensures Names([e] + users) == [e.name] + Names(users)
  {
  }

  /** `users.set(name, sock)` holds the old entries, but for the one it
      replaces, and the entry `name -> sock`. */
  lemma {:induction false} PutEntries(users: seq<Entry>, name: string, sock: Sid, e: Entry)
    ensures e in Put(users, name, sock) ==> e in users || e == Entry(name, sock)
    ensures Entry(name, sock) in Put(users, name, sock)
    decreases |users|
  {
    if users != [] && users[0].name != name {
      PutEntries(users[1..], name, sock, e);
    }
  }

  /** `users.set` keeps the keys unique. */
  lemma PutUnique(users: seq<Entry>, name: string, sock: Sid)
    requires UniqueNames(users)
    ensures UniqueNames(Put(users, name, sock))
  {
    PutNames(users, name, sock);
  }

  /** `users.delete(name)`: the entry under `name` is removed and the others
      keep their order. */
  function Delete(users: seq<Entry>, name: string): seq<Entry> {
    if users == [] then []
    else (if users[0].name == name then [] else [users[0]]) + Delete(users[1..], name)
  }

  /** What `users.delete(name)` keeps: exactly the entries under other names. */
  lemma {:induction false} DeleteEntries(users: seq<Entry>, name: string, e: Entry)
    ensures e in Delete(users, name) <==> e in users && e.name != name
    decreases |users|
  {
    if users != [] {
      DeleteEntries(users[1..], name, e);
      assert users == [users[0]] + users[1..];
    }
  }

  /** After `users.delete(name)`, `get(name)` misses and every other name
      gives what it gave before. */
  lemma {:induction false} DeleteLookup(users: seq<Entry>, name: string, other: string)
    ensures Lookup(Delete(users, name), other) ==
      if other == name then None else Lookup(users, other)
    decreases |users|
  {
    if users != [] {
      DeleteLookup(users[1..], name, other);
      if users[0].name != name {
        assert Delete(users, name) == [users[0]] + Delete(users[1..], name);
      } else {
        assert Delete(users, name) == Delete(users[1..], name);
      }
    }
  }

  /** The keys after `users.delete(name)` are the old keys, in the same
      order, without `name`. */
  lemma {:induction false} DeleteNames(users: seq<Entry>, name: string)
    ensures Names(Delete(users, name)) == Without(Names(users), name)
    decreases |users|
  {
    if users != [] {
      DeleteNames(users[1..], name);
      var d := Delete(users[1..], name);
      assert Names(users) == [users[0].name] + Names(users[1..]);
      if users[0].name != name {
        assert Names([users[0]] + d) == [users[0].name] + Names(d);
      } else {
        assert [] + d == d;
      }
    }
  }

  /** Deleting an absent key changes nothing. */
  lemma {:induction false} DeleteAbsent(users: seq<Entry>, name: string)
    requires name !in Names(users)
    ensures Delete(users, name) == users
    decreases |users|
  {
    if users != [] {
      NamesCons(users[0], users[1..]);
      assert users == [users[0]] + users[1..];
      DeleteAbsent(users[1..], name);
    }
  }

  /** Deleting the same key twice is deleting it once. */
  lemma DeleteTwice(users: seq<Entry>, name: string)
    ensures Delete(Delete(users, name), name) == Delete(users, name)
  {
    DeleteNames(users, name);
    WithoutMembers(Names(users), name, name);
    DeleteAbsent(Delete(users, name), name);
  }

  /** `users.delete` keeps the keys unique. */
  lemma DeleteUnique(users: seq<Entry>, name: string)
    requires UniqueNames(users)
    ensures UniqueNames(Delete(users, name))
  {
    DeleteNames(users, name);
    WithoutNoDup(Names(users), name);
  }

  // ---------------------------------------------------------------------
  // The `sockets` Set

  /** `set.delete(x)`: `x` is removed and the other elements keep their
      order. */
  function Without<T(==)>(xs: seq<T>, x: T): seq<T> {
    if xs == [] then []
    else (if xs[0] == x then [] else [xs[0]]) + Without(xs[1..], x)
  }

  /** What `set.delete(x)` keeps: everything but `x`. */
  lemma {:induction false} WithoutMembers<T>(xs: seq<T>, x: T, y: T)
    ensures y in Without(xs, x) <==> y in xs && y != x
    decreases |xs|
  {
    if xs != [] {
      WithoutMembers(xs[1..], x, y);
      assert xs == [xs[0]] + xs[1..];
    }
  }

  /** `set.delete` keeps the elements distinct. */
  lemma {:induction false} WithoutNoDup<T>(xs: seq<T>, x: T)
    requires NoDup(xs)
    ensures NoDup(Without(xs, x))
    decreases |xs|
  {
    if xs != [] {
      WithoutNoDup(xs[1..], x);
      var w := Without(xs[1..], x);
      if xs[0] != x {
        forall j | 0 <= j < |w| ensures w[j] != xs[0] {
          WithoutMembers(xs[1..], x, w[j]);
        }
        assert Without(xs, x) == [xs[0]] + w;
      } else {
        assert Without(xs, x) == w;
      }
    }
  }

  /** Deleting an element that is absent changes nothing. */
  lemma {:induction false} WithoutAbsent<T>(xs: seq<T>, x: T)
    requires x !in xs
    ensures Without(xs, x) == xs
    decreases |xs|
  {
    if xs != [] {
      WithoutAbsent(xs[1..], x);
      assert xs == [xs[0]] + xs[1..];
    }
  }

  /** Deleting the same element twice is deleting it once. */
  lemma WithoutTwice<T>(xs: seq<T>, x: T)
    ensures Without(Without(xs, x), x) == Without(xs, x)
  {
    WithoutMembers(xs, x, x);
    WithoutAbsent(Without(xs, x), x);
  }

  /** `set.add(x)`: a new element goes to the end; a present one stays. */
  function Add<T(==)>(xs: seq<T>, x: T): seq<T> {
    if x in xs then xs else xs + [x]
  }

  /** `set.add` keeps the elements distinct and adds exactly `x`. */
  lemma AddKeeps<T>(xs: seq<T>, x: T)
    requires NoDup(xs)
    ensures NoDup(Add(xs, x))
    ensures forall y :: y in Add(xs, x) <==> y in xs || y == x
  {
  }
}
