/** Tables with a unique key and a generated id, written only by upsert, and the link tables that
    are deleted and recreated for one owner at a time. */
module Upserts {
  /** `written` holds the columns every upsert sets, `kept` those only the creating one sets. */
  datatype Row<V, R> = Row(id: nat, written: V, kept: R)

  /** Ids from `next` on have never been used. */
  datatype Table<!K, V, R> = Table(rows: map<K, Row<V, R>>, next: nat)

  datatype Put<K, V> = Put(key: K, written: V)

  type Links = set<(nat, nat)>

  /** An upsert of an owner followed by the rewriting of its links. */
  datatype Write<K, V> = Write(put: Put<K, V>, granted: set<nat>)

  datatype Linked<!K, V, R> = Linked(table: Table<K, V, R>, links: Links)

  /** The id column is a primary key. */
  ghost predicate Keyed<K, V, R>(t: Table<K, V, R>) {
    && (forall k | k in t.rows :: t.rows[k].id < t.next)
    && (forall j, k | j in t.rows && k in t.rows && t.rows[j].id == t.rows[k].id :: j == k)
  }

  function Upsert<K(==), V, R>(t: Table<K, V, R>, put: Put<K, V>, kept: R): Table<K, V, R> {
    if put.key in t.rows then
      t.(rows := t.rows[put.key := t.rows[put.key].(written := put.written)])
    else
      Table(t.rows[put.key := Row(t.next, put.written, kept)], t.next + 1)
  }

  function UpsertAll<K(==), V, R>(t: Table<K, V, R>, puts: seq<Put<K, V>>, kept: R): Table<K, V, R> {
    if puts == [] then t
    else Upsert(UpsertAll(t, puts[..|puts| - 1], kept), puts[|puts| - 1], kept)
  }

  ghost predicate Named<K, V>(puts: seq<Put<K, V>>, k: K) {
    exists i :: 0 <= i < |puts| && puts[i].key == k
  }

  /** What the last of the puts for a key writes. */
  function Last<K(==), V>(puts: seq<Put<K, V>>, k: K): V
    requires Named(puts, k)
  {
    var last := puts[|puts| - 1];
    if last.key == k then last.written else Last(puts[..|puts| - 1], k)
  }

  /** A named key is present with the last text written for it, an unnamed row is as it was, and ids
      and kept columns survive. */
  ghost predicate UpsertedAt<K, V, R>(t: Table<K, V, R>, puts: seq<Put<K, V>>, kept: R, u: Table<K, V, R>, k: K) {
    && (k in u.rows <==> k in t.rows || Named(puts, k))
    && (k in t.rows ==> u.rows[k].id == t.rows[k].id && u.rows[k].kept == t.rows[k].kept)
    && (k in t.rows && !Named(puts, k) ==> u.rows[k] == t.rows[k])
    && (Named(puts, k) ==> u.rows[k].written == Last(puts, k))
    && (k in u.rows && k !in t.rows ==> u.rows[k].kept == kept)
  }

  ghost predicate Upserted<K(!new), V, R>(t: Table<K, V, R>, puts: seq<Put<K, V>>, kept: R, u: Table<K, V, R>) {
    forall k :: UpsertedAt(t, puts, kept, u, k)
  }

  lemma NamedSnoc<K, V>(puts: seq<Put<K, V>>, k: K)
    requires puts != []
    ensures Named(puts, k) <==> Named(puts[..|puts| - 1], k) || puts[|puts| - 1].key == k
  {
    var front := puts[..|puts| - 1];
    if Named(puts, k) && puts[|puts| - 1].key != k {
      var i :| 0 <= i < |puts| && puts[i].key == k;
      assert front[i].key == k;
    }
    if Named(front, k) {
      var i :| 0 <= i < |front| && front[i].key == k;
      assert puts[i].key == k;
    }
  }

  lemma {:induction false} UpsertAllAt<K, V, R>(t: Table<K, V, R>, puts: seq<Put<K, V>>, kept: R, k: K)
    ensures UpsertedAt(t, puts, kept, UpsertAll(t, puts, kept), k)
  {
    if puts != [] {
      UpsertAllAt(t, puts[..|puts| - 1], kept, k);
      NamedSnoc(puts, k);
    }
  }

  lemma UpsertAllMeaning<K(!new), V, R>(t: Table<K, V, R>, puts: seq<Put<K, V>>, kept: R)
    ensures Upserted(t, puts, kept, UpsertAll(t, puts, kept))
  {
    forall k ensures UpsertedAt(t, puts, kept, UpsertAll(t, puts, kept), k) {
      UpsertAllAt(t, puts, kept, k);
    }
  }

  lemma {:induction false} UpsertAllKeyed<K, V, R>(t: Table<K, V, R>, puts: seq<Put<K, V>>, kept: R)
    requires Keyed(t)
    ensures Keyed(UpsertAll(t, puts, kept))
  {
    if puts != [] {
      UpsertAllKeyed(t, puts[..|puts| - 1], kept);
    }
  }

  /** Nothing is created where every named key exists already. */
  lemma {:induction false} UpsertAllCreatesNothing<K(!new), V, R>(t: Table<K, V, R>, puts: seq<Put<K, V>>, kept: R)
    requires forall i | 0 <= i < |puts| :: puts[i].key in t.rows
    ensures UpsertAll(t, puts, kept).next == t.next
  {
    if puts != [] {
      UpsertAllCreatesNothing(t, puts[..|puts| - 1], kept);
      UpsertAllAt(t, puts[..|puts| - 1], kept, puts[|puts| - 1].key);
    }
  }

  lemma UpsertAllTwice<K(!new), V, R>(t: Table<K, V, R>, puts: seq<Put<K, V>>, kept: R)
    ensures UpsertAll(UpsertAll(t, puts, kept), puts, kept) == UpsertAll(t, puts, kept)
  {
    var u := UpsertAll(t, puts, kept);
    var w := UpsertAll(u, puts, kept);
    UpsertAllMeaning(t, puts, kept);
    UpsertAllMeaning(u, puts, kept);
    forall i | 0 <= i < |puts| ensures puts[i].key in u.rows {
      assert UpsertedAt(t, puts, kept, u, puts[i].key);
    }
    UpsertAllCreatesNothing(u, puts, kept);
    forall k ensures k in w.rows <==> k in u.rows
             ensures k in u.rows ==> w.rows[k] == u.rows[k] {
      assert UpsertedAt(t, puts, kept, u, k) && UpsertedAt(u, puts, kept, w, k);
    }
    assert w.rows == u.rows;
  }

  function Owned(links: Links, owner: nat): set<nat> {
    set l | l in links && l.0 == owner :: l.1
  }

  /** deleteMany for the owner, then one create per granted id. */
  function Relinked(links: Links, owner: nat, granted: set<nat>): Links {
    (set l | l in links && l.0 != owner) + (set p | p in granted :: (owner, p))
  }

  lemma RelinkedOwned(links: Links, owner: nat, granted: set<nat>, other: nat)
    ensures Owned(Relinked(links, owner, granted), other) == (if other == owner then granted else Owned(links, other))
  {
    var after := Relinked(links, owner, granted);
    if other == owner {
      forall p | p in granted ensures p in Owned(after, owner) {
        assert (owner, p) in after;
      }
    } else {
      forall p | p in Owned(links, other) ensures p in Owned(after, other) {
        assert (other, p) in after;
      }
      forall p | p in Owned(after, other) ensures p in Owned(links, other) {
        assert (other, p) in links;
      }
    }
  }

  lemma LinksByOwner(a: Links, b: Links)
    requires forall owner :: Owned(a, owner) == Owned(b, owner)
    ensures a == b
  {
    forall l | l in a ensures l in b {
      assert l.1 in Owned(b, l.0);
    }
    forall l | l in b ensures l in a {
      assert l.1 in Owned(a, l.0);
    }
  }

  function Rewrite<K(==), V, R>(s: Linked<K, V, R>, w: Write<K, V>, kept: R): Linked<K, V, R> {
    var table := Upsert(s.table, w.put, kept);
    Linked(table, Relinked(s.links, table.rows[w.put.key].id, w.granted))
  }

  function RewriteAll<K(==), V, R>(s: Linked<K, V, R>, writes: seq<Write<K, V>>, kept: R): Linked<K, V, R> {
    if writes == [] then s
    else Rewrite(RewriteAll(s, writes[..|writes| - 1], kept), writes[|writes| - 1], kept)
  }

  function Puts<K, V>(writes: seq<Write<K, V>>): (puts: seq<Put<K, V>>)
    ensures |puts| == |writes|
    ensures forall i | 0 <= i < |puts| :: puts[i] == writes[i].put
  {
    if writes == [] then [] else Puts(writes[..|writes| - 1]) + [writes[|writes| - 1].put]
  }

  function LastGranted<K(==), V>(writes: seq<Write<K, V>>, k: K): set<nat>
    requires Named(Puts(writes), k)
  {
    var last := writes[|writes| - 1];
    var front := writes[..|writes| - 1];
    if last.put.key == k then last.granted
    else
      assert Puts(writes)[..|writes| - 1] == Puts(front);
      NamedSnoc(Puts(writes), k);
      LastGranted(front, k)
  }

  /** Each named owner holds what its last write granted, and no other owner's links change. */
  ghost predicate Rewritten<K(!new), V, R>(s: Linked<K, V, R>, writes: seq<Write<K, V>>, kept: R, u: Linked<K, V, R>) {
    && u.table == UpsertAll(s.table, Puts(writes), kept)
    && (forall k | k in u.table.rows && Named(Puts(writes), k) ::
          Owned(u.links, u.table.rows[k].id) == LastGranted(writes, k))
    && (forall owner | (forall k | k in u.table.rows && Named(Puts(writes), k) :: u.table.rows[k].id != owner) ::
          Owned(u.links, owner) == Owned(s.links, owner))
  }

  lemma {:induction false} RewriteAllMeaning<K(!new), V, R>(s: Linked<K, V, R>, writes: seq<Write<K, V>>, kept: R)
    requires Keyed(s.table)
    ensures Rewritten(s, writes, kept, RewriteAll(s, writes, kept))
  {
    if writes != [] {
      var front, last := writes[..|writes| - 1], writes[|writes| - 1];
      var m, u := RewriteAll(s, front, kept), RewriteAll(s, writes, kept);
      RewriteAllMeaning(s, front, kept);
      assert Puts(writes)[..|writes| - 1] == Puts(front);
      UpsertAllMeaning(s.table, Puts(front), kept);
      UpsertAllMeaning(s.table, Puts(writes), kept);
      UpsertAllKeyed(s.table, Puts(writes), kept);
      assert u.table == UpsertAll(s.table, Puts(writes), kept);
      var id := u.table.rows[last.put.key].id;
      forall k ensures Named(Puts(writes), k) <==> Named(Puts(front), k) || last.put.key == k {
        NamedSnoc(Puts(writes), k);
      }
      forall k | k in u.table.rows && Named(Puts(writes), k)
        ensures Owned(u.links, u.table.rows[k].id) == LastGranted(writes, k)
      {
        RelinkedOwned(m.links, id, last.granted, u.table.rows[k].id);
        if k != last.put.key {
          assert UpsertedAt(s.table, Puts(front), kept, m.table, k);
          assert u.table.rows[k].id == m.table.rows[k].id != id;
        }
      }
      forall owner | forall k | k in u.table.rows && Named(Puts(writes), k) :: u.table.rows[k].id != owner
        ensures Owned(u.links, owner) == Owned(s.links, owner)
      {
        RelinkedOwned(m.links, id, last.granted, owner);
        assert Named(Puts(writes), last.put.key);
        forall k | k in m.table.rows && Named(Puts(front), k) ensures m.table.rows[k].id != owner {
          assert u.table.rows[k].id == m.table.rows[k].id;
        }
      }
    }
  }

  lemma RewriteAllTwice<K(!new), V, R>(s: Linked<K, V, R>, writes: seq<Write<K, V>>, kept: R)
    requires Keyed(s.table)
    ensures RewriteAll(RewriteAll(s, writes, kept), writes, kept) == RewriteAll(s, writes, kept)
  {
    var u := RewriteAll(s, writes, kept);
    var w := RewriteAll(u, writes, kept);
    RewriteAllMeaning(s, writes, kept);
    UpsertAllMeaning(s.table, Puts(writes), kept);
    UpsertAllKeyed(s.table, Puts(writes), kept);
    RewriteAllMeaning(u, writes, kept);
    UpsertAllTwice(s.table, Puts(writes), kept);
    assert w.table == u.table;
    forall owner ensures Owned(w.links, owner) == Owned(u.links, owner) {
      if k :| k in u.table.rows && Named(Puts(writes), k) && u.table.rows[k].id == owner {
        assert Owned(w.links, owner) == LastGranted(writes, k);
      }
    }
    LinksByOwner(w.links, u.links);
  }
}
