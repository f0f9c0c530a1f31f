/** The channels of a multiplexer in their hash table: ids to the addresses of channel records,
    in the order the channels were created. */
module Channels {
  import opened Options
  import opened LinkedHashtable
  import opened Sealing

  /** The key of an id; its hash is the id itself. */
  function KeyOf(id: nat): Key { [id] }

  function HashOf(key: Key): nat { if key != [] && key[0] >= 0 then key[0] else 0 }

  /** The list holds these ids with these addresses. */
  ghost predicate Shows(list: seq<(Key, Data)>, order: seq<nat>, address: map<nat, Data>) {
    && |list| == |order|
    && (forall i :: 0 <= i < |order| ==> order[i] in address && list[i] == (KeyOf(order[i]), address[order[i]]))
    && (forall id :: id in address ==> id in order)
  }

  lemma ShownDistinct(list: seq<(Key, Data)>, order: seq<nat>, address: map<nat, Data>)
    requires Shows(list, order, address) && DistinctKeys(list)
    ensures forall i, j :: 0 <= i < j < |order| ==> order[i] != order[j]
  {
    forall i, j | 0 <= i < j < |order| ensures order[i] != order[j] { assert list[i].0 != list[j].0; }
  }

  /** The place of an id in the list. */
  lemma ShownAt(list: seq<(Key, Data)>, order: seq<nat>, address: map<nat, Data>, id: nat)
    requires Shows(list, order, address)
    ensures id in address <==> IndexOf(list, KeyOf(id)) < |list|
    ensures id in address ==> order[IndexOf(list, KeyOf(id))] == id
    ensures GetSpec(list, KeyOf(id)) == if id in address then Some(address[id]) else None
  {
    var k := IndexOf(list, KeyOf(id));
    if k < |list| { assert KeyOf(order[k])[0] == KeyOf(id)[0]; }
    if id in address {
      var j :| 0 <= j < |order| && order[j] == id;
      assert list[j].0 == KeyOf(id);
    }
  }

  lemma ShownPut(list: seq<(Key, Data)>, order: seq<nat>, address: map<nat, Data>, id: nat, a: Data)
    requires Shows(list, order, address) && id !in address
    ensures Shows(PutSpec(list, KeyOf(id), a), order + [id], address[id := a])
  {
    ShownAt(list, order, address, id);
  }

  lemma WithoutAt<T>(s: seq<T>, k: nat, i: nat)
    requires k < |s| && i < |s| - 1
    ensures Without(s, k)[i] == s[if i < k then i else i + 1]
  {
  }

  lemma OthersStay(order: seq<nat>, k: nat, id: nat)
    requires k < |order| && id in order && id != order[k]
    ensures id in Without(order, k)
  {
    var j :| 0 <= j < |order| && order[j] == id;
    assert Without(order, k)[if j < k then j else j - 1] == id;
  }

  lemma ShownWithout(list: seq<(Key, Data)>, order: seq<nat>, address: map<nat, Data>, k: nat)
    requires Shows(list, order, address) && DistinctKeys(list) && k < |order|
    ensures Shows(Without(list, k), Without(order, k), address - {order[k]})
  {
    ShownDistinct(list, order, address);
    forall id | id in address && id != order[k] ensures id in Without(order, k) {
      OthersStay(order, k, id);
    }
    forall i | 0 <= i < |order| - 1
      ensures Without(order, k)[i] in address && Without(order, k)[i] != order[k]
      ensures Without(list, k)[i] == (KeyOf(Without(order, k)[i]), address[Without(order, k)[i]])
    {
      WithoutAt(order, k, i);
      WithoutAt(list, k, i);
    }
  }

  class ChannelIndex {
    const table: Hashtable
    ghost var order: seq<nat>
    ghost var address: map<nat, Data>
    ghost var Repr: set<object>

    ghost predicate Valid()
      reads this, Repr
    {
      && this in Repr && table in Repr && table.buckets in Repr && table.head in Repr
      && Indexes()
    }

    /** What the table holds, sealed. */
    ghost predicate Indexes()
      requires this in Repr && table in Repr && table.buckets in Repr && table.head in Repr
      reads this, Repr
    {
      forall i {:trigger Unsealed(Indexing, i)} :: Unsealed(Indexing, i) ==> Contents()
    }

    ghost predicate Contents()
      requires this in Repr && table in Repr && table.buckets in Repr && table.head in Repr
      reads this, Repr
    {
      && (forall n :: n in table.view.order ==> n in Repr)
      && (forall b, i :: 0 <= b < |table.view.chains| && 0 <= i < |table.view.chains[b]| ==>
          table.view.chains[b][i] in Repr)
      && table.Valid() && Shows(Listing(table.view), order, address)
    }

    lemma LookUp()
      requires Valid()
      ensures Contents()
    {
      assert Unsealed(Indexing, 0);
    }

    constructor ()
      ensures Valid() && order == [] && address == map[] && fresh(Repr)
    {
      table := new Hashtable(256, HashOf);
      new;
      order, address := [], map[];
      assert Listing(table.view) == [];
      Own({});
    }

    /** The nodes of the table, which are all in its list. */
    ghost method Own(before: set<object>)
      requires table.Valid()
      modifies this`Repr
      ensures Repr == before + {this, table, table.buckets, table.head} + set n | n in table.view.order
      ensures forall b, i :: 0 <= b < |table.view.chains| && 0 <= i < |table.view.chains[b]| ==>
                table.view.chains[b][i] in Repr
    {
      Repr := before + {this, table, table.buckets, table.head} + set n | n in table.view.order;
      LookInside(table.view, table.hashCode, table.capacity);
    }

    /** Ids are listed once each. */
    lemma Distinct()
      requires Valid()
      ensures forall i, j :: 0 <= i < j < |order| ==> order[i] != order[j]
      ensures forall id :: id in order <==> id in address
    {
      LookUp();
      DistinctContents(table.view, table.hashCode, table.capacity);
      ShownDistinct(Listing(table.view), order, address);
    }

    /** channels_put, for an id that is not in the table. */
    method Put(id: nat, a: Data)
      requires Valid() && id !in address && a != NULL
      modifies Repr
      ensures Valid() && fresh(Repr - old(Repr))
      ensures order == old(order) + [id] && address == old(address)[id := a]
    {
      LookUp();
      ShownPut(Listing(table.view), order, address, id, a);
      PutFresh(table, KeyOf(id), a);
      Added(id, a);
    }

    ghost method Added(id: nat, a: Data)
      requires this in Repr && table in Repr && table.buckets in Repr && table.head in Repr
      requires table.Valid() && Shows(Listing(table.view), order + [id], address[id := a])
      modifies this
      ensures Valid() && order == old(order) + [id] && address == old(address)[id := a]
      ensures Repr == old(Repr) + set n | n in table.view.order
    {
      order, address := order + [id], address[id := a];
      Own(Repr);
    }

    /** Bookkeeping after a removal through an iterator. */
    ghost method Removed(k: nat)
      requires this in Repr && table in Repr && table.buckets in Repr && table.head in Repr && k < |order|
      requires table.Valid() && forall n :: n in table.view.order ==> n in Repr
      requires Shows(Listing(table.view), Without(order, k), address - {order[k]})
      modifies this
      ensures Valid() && Repr == old(Repr) && order == Without(old(order), k)
              && address == old(address) - {old(order)[k]}
    {
      order, address := Without(order, k), address - {order[k]};
      Own(Repr);
    }

    /** channels_get. */
    method Get(id: nat) returns (a: Option<Data>)
      requires Valid()
      ensures a == if id in address then Some(address[id]) else None
    {
      LookUp();
      ShownAt(Listing(table.view), order, address, id);
      a := table.Get(KeyOf(id));
    }

    /** channels_remove. */
    method Remove(id: nat)
      requires Valid() && id in address
      modifies Repr
      ensures Valid() && fresh(Repr - old(Repr)) && address == old(address) - {id}
    {
      LookUp();
      ghost var k := Find(id);
      var _ := table.Remove(KeyOf(id));
      Removed(k);
    }

    lemma Find(id: nat) returns (k: nat)
      requires Valid() && Contents() && id in address
      ensures k < |order| == |table.view.order| && order[k] == id && k == IndexOf(Listing(table.view), KeyOf(id))
      ensures GetSpec(Listing(table.view), KeyOf(id)).Some?
      ensures RemoveSpec(Listing(table.view), KeyOf(id)) == Without(Listing(table.view), k)
      ensures Shows(Without(Listing(table.view), k), Without(order, k), address - {id})
      ensures forall n :: n in Without(table.view.order, k) ==> n in table.view.order
    {
      var list := Listing(table.view);
      k := IndexOf(list, KeyOf(id));
      DistinctContents(table.view, table.hashCode, table.capacity);
      ShownAt(list, order, address, id);
      ShownWithout(list, order, address, k);
    }
  }

  /** An iterator over the channels that nobody disturbs. */
  class ChannelIterator {
    const index: ChannelIndex
    const it: Iterator

    ghost predicate Valid()
      reads this, it, index, index.Repr
    {
      && index.Valid() && it.table == index.table && it !in index.Repr && it.Valid()
      && it.expected == index.table.modCount
    }

    /** How many channels are behind it. */
    ghost function Pos(): nat reads it { it.pos }

    /** Whether the channel last met may be removed. */
    ghost predicate Standing() reads it { it.current != null }

    constructor (index: ChannelIndex)
      requires index.Valid()
      ensures Valid() && this.index == index && Pos() == 0 && fresh(it)
    {
      index.LookUp();
      this.index := index;
      it := new Iterator(index.table);
    }

    /** channels_iterator_has_next and channels_iterator_next. */
    method Next() returns (more: bool, id: nat, a: Data)
      requires Valid()
      modifies it
      ensures Valid() && more == (old(Pos()) < |index.order|)
      ensures more ==> id == index.order[old(Pos())] && id in index.address && a == index.address[id]
      ensures more ==> Standing() && Pos() == old(Pos()) + 1
      ensures !more ==> Pos() == old(Pos())
    {
      index.LookUp();
      more, id, a := false, 0, 0;
      var has := it.HasNext();
      if !has { return; }
      var rc, key, data := it.Next();
      assert (key, data) == Listing(index.table.view)[old(it.pos)];
      more, id, a := true, key[0], data;
    }

    /** channels_iterator_remove. */
    method Remove()
      requires Valid() && Standing() && 0 < Pos() <= |index.order|
      modifies it, index.Repr
      ensures Valid() && fresh(index.Repr - old(index.Repr)) && Pos() == old(Pos()) - 1
      ensures index.order == Without(old(index.order), Pos())
              && index.address == old(index.address) - {old(index.order)[Pos()]}
    {
      index.LookUp();
      ghost var list, k := Listing(index.table.view), it.pos - 1;
      DistinctContents(index.table.view, index.table.hashCode, index.table.capacity);
      ShownWithout(list, index.order, index.address, k);
      var _ := it.Remove();
      index.Removed(k);
    }
  }
}
