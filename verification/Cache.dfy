/** base3/cache.h: a list of entries, oldest use first, with an index from keys into the list. */
module Cache {
  import opened Text

  datatype Node<K, V> = Node(key: K, value: V)

  /** The two containers. A list node is named by a number, as std::list keeps an iterator valid while nodes move. */
  datatype Containers<K, V> = Containers(list: seq<nat>, nodes: map<nat, Node<K, V>>, index: map<K, nat>)

  predicate Distinct(list: seq<nat>)
  {
    forall i, j :: 0 <= i < j < |list| ==> list[i] != list[j]
  }

  ghost predicate SameMembers<K, V>(list: seq<nat>, nodes: map<nat, Node<K, V>>)
  {
    forall id :: id in list <==> id in nodes
  }

  ghost predicate Indexed<K, V>(nodes: map<nat, Node<K, V>>, index: map<K, nat>)
  {
    && (forall k :: k in index ==> index[k] in nodes && nodes[index[k]].key == k)
    && (forall id :: id in nodes ==> nodes[id].key in index && index[nodes[id].key] == id)
  }

  /** Node names are not reused. */
  ghost predicate Below<K, V>(nodes: map<nat, Node<K, V>>, bound: nat)
  {
    forall id :: id in nodes ==> id < bound
  }

  /** List and index describe the same finite map. */
  ghost predicate Agree<K, V>(c: Containers<K, V>)
  {
    Distinct(c.list) && SameMembers(c.list, c.nodes) && Indexed(c.nodes, c.index)
  }

  /** The entries in list order. */
  ghost function Entries<K, V>(list: seq<nat>, nodes: map<nat, Node<K, V>>): (es: seq<Node<K, V>>)
    requires forall id :: id in list ==> id in nodes
    ensures |es| == |list| && forall i :: 0 <= i < |list| ==> es[i] == nodes[list[i]]
  {
    seq(|list|, i requires 0 <= i < |list| => nodes[list[i]])
  }

  ghost function EntriesOf<K, V>(c: Containers<K, V>): (es: seq<Node<K, V>>)
    requires Agree(c)
    ensures |es| == |c.list|
  {
    Entries(c.list, c.nodes)
  }

  function Without(list: seq<nat>, id: nat): seq<nat>
  {
    if list == [] then [] else if list[0] == id then list[1..] else [list[0]] + Without(list[1..], id)
  }

  // ----- the operations on the containers -----

  /** list_.splice(list_.end(), list_, i). */
  function Touched<K, V>(c: Containers<K, V>, key: K): Containers<K, V>
    requires key in c.index
  {
    c.(list := Without(c.list, c.index[key]) + [c.index[key]])
  }

  function Inserted<K, V>(c: Containers<K, V>, id: nat, key: K, value: V): Containers<K, V>
  {
    Containers(c.list + [id], c.nodes[id := Node(key, value)], c.index[key := id])
  }

  function Erased<K, V>(c: Containers<K, V>, key: K): Containers<K, V>
  {
    if key !in c.index then c
    else Containers(Without(c.list, c.index[key]), c.nodes - {c.index[key]}, c.index - {key})
  }

  /** One turn of the loop in Replace. */
  function FirstDropped<K, V>(c: Containers<K, V>): Containers<K, V>
    requires c.list != [] && c.list[0] in c.nodes
  {
    Containers(c.list[1..], c.nodes - {c.list[0]}, c.index - {c.nodes[c.list[0]].key})
  }

  // ----- what each does to the entries -----

  function PositionOf<K(==), V>(es: seq<Node<K, V>>, key: K): (i: int)
    ensures -1 <= i < |es| && (i >= 0 ==> es[i].key == key)
    ensures i < 0 ==> forall j :: 0 <= j < |es| ==> es[j].key != key
  {
    if es == [] then -1
    else if es[0].key == key then 0
    else
      var i := PositionOf(es[1..], key);
      assert i < 0 ==> forall j :: 0 < j < |es| ==> es[j] == es[1..][j - 1];
      if i < 0 then -1 else i + 1
  }

  lemma {:induction false} WithoutIs(list: seq<nat>, p: nat)
    requires p < |list| && Distinct(list)
    ensures Without(list, list[p]) == list[..p] + list[p + 1..]
  {
    if p > 0 {
      assert list[1..][p - 1] == list[p];
      WithoutIs(list[1..], p - 1);
      assert list[1..][..p - 1] == list[1..p];
      assert list[1..][p..] == list[p + 1..];
    }
  }

  /** A key in the index has a place in the list. */
  lemma PlaceOf<K, V>(c: Containers<K, V>, key: K) returns (p: nat)
    requires Agree(c) && key in c.index
    ensures p < |c.list| && c.list[p] == c.index[key] && c.list[p] in c.nodes && EntriesOf(c)[p].key == key
  {
    p :| p < |c.list| && c.list[p] == c.index[key];
  }

  lemma Removed(list: seq<nat>, p: nat)
    requires Distinct(list) && p < |list|
    ensures var rest := list[..p] + list[p + 1..];
            Distinct(rest) && forall id :: id in rest <==> id in list && id != list[p]
  {
    var rest := list[..p] + list[p + 1..];
    forall i | 0 <= i < |rest| ensures rest[i] == list[if i < p then i else i + 1] {
    }
    forall id | id in list && id != list[p] ensures id in rest {
      var i :| 0 <= i < |list| && list[i] == id;
      assert rest[if i < p then i else i - 1] == id;
    }
  }

  lemma Appended(list: seq<nat>, id: nat)
    requires Distinct(list) && id !in list
    ensures Distinct(list + [id]) && forall x :: x in list + [id] <==> x in list || x == id
  {
  }

  /** Find keeps the agreement and moves one entry to the end. */
  lemma TouchKeeps<K, V>(c: Containers<K, V>, key: K) returns (p: nat)
    requires Agree(c) && key in c.index
    ensures Agree(Touched(c, key))
    ensures p < |c.list| && EntriesOf(c)[p].key == key
    ensures EntriesOf(Touched(c, key)) == EntriesOf(c)[..p] + EntriesOf(c)[p + 1..] + [EntriesOf(c)[p]]
  {
    p := PlaceOf(c, key);
    EntriesMoved(c.list, c.nodes, p);
    hide Indexed, Distinct, Without, Entries;
    WithoutIs(c.list, p);
    Removed(c.list, p);
    Appended(c.list[..p] + c.list[p + 1..], c.list[p]);
  }

  /** Insert keeps the agreement exactly when the key was absent. */
  lemma InsertKeepsIff<K, V>(c: Containers<K, V>, id: nat, key: K, value: V)
    requires Agree(c) && id !in c.nodes
    ensures Agree(Inserted(c, id, key, value)) <==> key !in c.index
    ensures key !in c.index ==> EntriesOf(Inserted(c, id, key, value)) == EntriesOf(c) + [Node(key, value)]
  {
    var d := Inserted(c, id, key, value);
    Appended(c.list, id);
    EntriesAdded(c.list, c.nodes, id, Node(key, value));
    hide Distinct, Entries;
    if key in c.index {
      var was := c.index[key];
      assert was in d.nodes && d.nodes[was].key == key && d.index[key] == id;
    } else {
      IndexedMore(c, id, key, value);
      hide Indexed;
    }
  }

  lemma IndexedMore<K, V>(c: Containers<K, V>, id: nat, key: K, value: V)
    requires Agree(c) && id !in c.nodes && key !in c.index
    ensures Indexed(c.nodes[id := Node(key, value)], c.index[key := id])
  {
    hide Distinct;
  }

  lemma IndexedLess<K, V>(c: Containers<K, V>, key: K)
    requires Agree(c) && key in c.index
    ensures Indexed(c.nodes - {c.index[key]}, c.index - {key})
  {
    hide Distinct;
  }

  lemma EntriesRemoved<K, V>(list: seq<nat>, nodes: map<nat, Node<K, V>>, p: nat, left: map<nat, Node<K, V>>)
    requires p < |list| && Distinct(list) && (forall id :: id in list ==> id in nodes)
    requires left == nodes - {list[p]}
    ensures var rest := list[..p] + list[p + 1..];
            && (forall id :: id in rest ==> id in left)
            && Entries(rest, left) == Entries(list, nodes)[..p] + Entries(list, nodes)[p + 1..]
  {
    Removed(list, p);
    hide Distinct;
    var rest := list[..p] + list[p + 1..];
    forall i | 0 <= i < |rest| ensures rest[i] in left && left[rest[i]] == nodes[list[if i < p then i else i + 1]] {
      assert rest[i] == list[if i < p then i else i + 1];
      assert rest[i] in rest;
    }
  }

  lemma EntriesMoved<K, V>(list: seq<nat>, nodes: map<nat, Node<K, V>>, p: nat)
    requires p < |list| && (forall id :: id in list ==> id in nodes)
    ensures var moved := list[..p] + list[p + 1..] + [list[p]];
            && (forall id :: id in moved ==> id in nodes)
            && Entries(moved, nodes) == Entries(list, nodes)[..p] + Entries(list, nodes)[p + 1..] + [Entries(list, nodes)[p]]
  {
    var moved := list[..p] + list[p + 1..] + [list[p]];
    forall i | 0 <= i < |moved| ensures moved[i] == list[if i < p then i else if i < |list| - 1 then i + 1 else p] {
    }
  }

  lemma EntriesAdded<K, V>(list: seq<nat>, nodes: map<nat, Node<K, V>>, id: nat, n: Node<K, V>)
    requires (forall x :: x in list ==> x in nodes) && id !in nodes
    ensures (forall x :: x in list + [id] ==> x in nodes[id := n])
            && Entries(list + [id], nodes[id := n]) == Entries(list, nodes) + [n]
  {
  }

  /** Erase keeps the agreement and removes one entry. */
  lemma EraseKeeps<K, V>(c: Containers<K, V>, key: K) returns (p: nat)
    requires Agree(c)
    ensures Agree(Erased(c, key))
    ensures key !in c.index ==> Erased(c, key) == c
    ensures key in c.index ==> p < |c.list| && EntriesOf(c)[p].key == key
                               && EntriesOf(Erased(c, key)) == EntriesOf(c)[..p] + EntriesOf(c)[p + 1..]
  {
    p := 0;
    if key in c.index {
      p := PlaceOf(c, key);
      hide Agree, EntriesOf;
      EraseAt(c, key, p);
    }
  }

  lemma EraseAt<K, V>(c: Containers<K, V>, key: K, p: nat)
    requires Agree(c) && key in c.index && p < |c.list| && c.list[p] == c.index[key]
    ensures Agree(Erased(c, key)) && EntriesOf(Erased(c, key)) == EntriesOf(c)[..p] + EntriesOf(c)[p + 1..]
  {
    IndexedLess(c, key);
    EntriesRemoved(c.list, c.nodes, p, c.nodes - {c.list[p]});
    WithoutIs(c.list, p);
    Removed(c.list, p);
    hide Indexed, Distinct, Without, Entries;
  }

  /** Both containers have the same size. */
  lemma {:induction false} SizesAgree<K, V>(c: Containers<K, V>)
    requires Agree(c)
    ensures |c.index| == |c.list|
    decreases |c.list|
  {
    if c.list == [] {
      assert forall k :: k in c.index ==> c.index[k] in c.list;
      assert c.index == map[];
    } else {
      var key := c.nodes[c.list[0]].key;
      var p := EraseKeeps(c, key);
      SizesAgree(Erased(c, key));
      assert (c.index - {key}).Keys == c.index.Keys - {key};
    }
  }

  // ----- the order of use -----

  /** When the key was last used, counted from one; zero for never. */
  ghost function LastUse<K>(uses: seq<K>, key: K): (n: nat)
    ensures n <= |uses|
  {
    if uses == [] then 0 else if uses[|uses| - 1] == key then |uses| else LastUse(uses[..|uses| - 1], key)
  }

  ghost predicate ByLastUse<K, V>(es: seq<Node<K, V>>, uses: seq<K>)
  {
    && (forall i :: 0 <= i < |es| ==> LastUse(uses, es[i].key) > 0)
    && forall i, j :: 0 <= i < j < |es| ==> LastUse(uses, es[i].key) < LastUse(uses, es[j].key)
  }

  lemma LastUseOfMore<K>(uses: seq<K>, used: K, key: K)
    ensures LastUse(uses + [used], key) == if key == used then |uses| + 1 else LastUse(uses, key)
  {
    assert (uses + [used])[..|uses|] == uses;
  }

  /** Moving the entry that is used to the end keeps the order of use. */
  lemma UseGoesLast<K, V>(es: seq<Node<K, V>>, uses: seq<K>, n: Node<K, V>)
    requires ByLastUse(es, uses) && forall i :: 0 <= i < |es| ==> es[i].key != n.key
    ensures ByLastUse(es + [n], uses + [n.key])
  {
    forall e: Node<K, V> ensures LastUse(uses + [n.key], e.key) == if e.key == n.key then |uses| + 1 else LastUse(uses, e.key) {
      LastUseOfMore(uses, n.key, e.key);
    }
  }

  lemma SubsequenceByUse<K, V>(es: seq<Node<K, V>>, uses: seq<K>, p: nat)
    requires ByLastUse(es, uses) && p < |es|
    ensures ByLastUse(es[..p] + es[p + 1..], uses)
  {
    var rest := es[..p] + es[p + 1..];
    forall i | 0 <= i < |rest| ensures rest[i] == es[if i < p then i else i + 1] {
    }
  }

  /** What Replace keeps was used later than everything that it drops. */
  lemma KeptAreMostRecent<K, V>(es: seq<Node<K, V>>, uses: seq<K>, count: nat, kept: Node<K, V>, dropped: Node<K, V>)
    requires ByLastUse(es, uses) && count <= |es| && kept in es[count..] && dropped in es[..count]
    ensures LastUse(uses, dropped.key) < LastUse(uses, kept.key)
  {
    var i :| 0 <= i < count && es[i] == dropped;
    var j :| 0 <= j < |es| - count && es[count..][j] == kept;
    assert es[count + j] == kept;
  }

  lemma FirstPlace<K, V>(c: Containers<K, V>)
    requires Agree(c) && c.list != []
    ensures c.list[0] in c.nodes && c.nodes[c.list[0]].key in c.index && c.list[0] == c.index[c.nodes[c.list[0]].key]
  {
    assert c.list[0] in c.nodes;
  }

  lemma DropAgrees<K, V>(c: Containers<K, V>)
    requires Agree(c) && c.list != []
    ensures c.list[0] in c.nodes && Agree(FirstDropped(c)) && EntriesOf(FirstDropped(c)) == EntriesOf(c)[1..]
    ensures |FirstDropped(c).list| == |c.list| - 1
    ensures forall bound :: Below(c.nodes, bound) ==> Below(FirstDropped(c).nodes, bound)
  {
    FirstPlace(c);
    var key := c.nodes[c.list[0]].key;
    EraseAt(c, key, 0);
    hide Agree, EntriesOf;
    assert Erased(c, key) == FirstDropped(c);
  }

  lemma DropByUse<K, V>(es: seq<Node<K, V>>, uses: seq<K>)
    requires ByLastUse(es, uses) && es != []
    ensures ByLastUse(es[1..], uses)
  {
    assert es[..0] + es[1..] == es[1..];
    SubsequenceByUse(es, uses, 0);
  }

  ghost predicate Good<K, V>(c: Containers<K, V>, nextId: nat, uses: seq<K>)
    requires Agree(c)
  {
    ByLastUse(EntriesOf(c), uses) && Below(c.nodes, nextId)
  }

  lemma DropOne<K, V>(c: Containers<K, V>, nextId: nat, uses: seq<K>, all: seq<Node<K, V>>, i: nat)
    requires Agree(c) && Good(c, nextId, uses) && i < |all| && EntriesOf(c) == all[i..]
    ensures c.list != [] && c.list[0] in c.nodes
    ensures var d := FirstDropped(c);
            Agree(d) && Good(d, nextId, uses) && EntriesOf(d) == all[i + 1..]
  {
    hide FirstDropped, ByLastUse, Agree, Below;
    assert |EntriesOf(c)| > 0;
    DropAgrees(c);
    DropByUse(EntriesOf(c), uses);
    assert all[i..][1..] == all[i + 1..];
  }

  // ----- the class -----

  class HashCache<K(==), V> {
    var c: Containers<K, V>
    var nextId: nat
    var maxSize: nat
    var replacing: bool
    const none: V
    /** Every key in the order in which Find, Locate and Insert used it. */
    ghost var uses: seq<K>

    ghost predicate Valid()
      reads this
    {
      Agree(c) && Good(c, nextId, uses)
    }

    constructor (maxSize: nat, none: V)
      ensures Valid() && c == Containers([], map[], map[]) && this.maxSize == maxSize && !replacing && uses == []
      ensures this.none == none && nextId == 0
    {
      c := Containers([], map[], map[]);
      nextId, this.maxSize, replacing, this.none, uses := 0, maxSize, false, none, [];
    }

    /** ebaseed(): more than a tenth too many. */
    predicate Exceeded()
      reads this
    {
      |c.index| > maxSize && |c.index| - maxSize > maxSize / 10
    }

    method Find(key: K) returns (value: V)
      requires Valid()
      modifies this`c, this`uses
      ensures Valid()
      ensures if key in old(c).index then c == Touched(old(c), key) && value == c.nodes[c.index[key]].value && uses == old(uses) + [key]
              else c == old(c) && value == none && uses == old(uses)
    {
      if key in c.index {
        assert c.index[key] in c.nodes;
        TouchByUse(c, key, uses);
        hide Agree, EntriesOf, ByLastUse, Without;
        c := Touched(c, key);
        uses := uses + [key];
        return c.nodes[c.index[key]].value;
      }
      value := none;
    }

    /** Posts a Replace when the cache has grown by a tenth and none is pending. The two containers agree afterwards
        if and only if the key was new. */
    method Insert(key: K, value: V) returns (posted: bool)
      requires Valid()
      modifies this`c, this`uses, this`nextId, this`replacing
      ensures c == Inserted(old(c), old(nextId), key, value) && nextId == old(nextId) + 1 && uses == old(uses) + [key]
      ensures Valid() <==> key !in old(c).index
      ensures key !in old(c).index ==> EntriesOf(c) == EntriesOf(old(c)) + [Node(key, value)]
      ensures posted == (!old(replacing) && Exceeded()) && replacing == (old(replacing) || posted)
    {
      hide Agree, EntriesOf, ByLastUse;
      InsertKeepsIff(c, nextId, key, value);
      if key !in c.index {
        AbsentKey(c, key);
        UseGoesLast(EntriesOf(c), uses, Node(key, value));
      }
      c := Inserted(c, nextId, key, value);
      nextId := nextId + 1;
      uses := uses + [key];
      posted := !replacing && Exceeded();
      if posted {
        replacing := true;
      }
    }

    method Erase(key: K)
      requires Valid()
      modifies this`c
      ensures Valid() && c == Erased(old(c), key)
    {
      hide Agree, EntriesOf, ByLastUse;
      ghost var p := EraseKeeps(c, key);
      if key in c.index {
        SubsequenceByUse(EntriesOf(c), uses, p);
        c := Erased(c, key);
      }
    }

    /** Creator is called outside the lock; its result is the parameter. */
    method Locate(key: K, created: Option<V>) returns (value: V, posted: bool)
      requires Valid()
      modifies this`c, this`uses, this`nextId, this`replacing
      ensures Valid()
      ensures key in old(c).index ==> value == old(c).nodes[old(c).index[key]].value && c == Touched(old(c), key)
      ensures key !in old(c).index && created.Some? ==> value == created.value && EntriesOf(c) == EntriesOf(old(c)) + [Node(key, created.value)]
      ensures key !in old(c).index && created.None? ==> value == none && c == old(c)
    {
      posted := false;
      if key in c.index {
        value := Find(key);
      } else if created.Some? {
        posted := Insert(key, created.value);
        value := created.value;
      } else {
        value := none;
      }
    }

    /** Drops the entries in front until max_size are left. The subtraction is unsigned, so there must be that many. */
    method Replace() returns (count: nat)
      requires Valid() && |c.index| >= maxSize
      modifies this`c, this`replacing
      ensures Valid() && !replacing && count == |EntriesOf(old(c))| - maxSize
      ensures EntriesOf(c) == EntriesOf(old(c))[count..]
    {
      hide EntriesOf, Agree, Good, FirstDropped;
      SizesAgree(c);
      ghost var all := EntriesOf(c);
      assert all[0..] == all;
      count := |c.index| - maxSize;
      var i := 0;
      while i < count
        invariant i <= count && Valid() && EntriesOf(c) == all[i..]
      {
        DropOne(c, nextId, uses, all, i);
        c := FirstDropped(c);
        i := i + 1;
      }
      replacing := false;
    }
  }

  lemma TouchByUse<K, V>(c: Containers<K, V>, key: K, uses: seq<K>)
    requires Agree(c) && key in c.index && ByLastUse(EntriesOf(c), uses)
    ensures Agree(Touched(c, key)) && ByLastUse(EntriesOf(Touched(c, key)), uses + [key])
  {
    var p := TouchKeeps(c, key);
    OtherKeys(c, p);
    hide Agree, EntriesOf, ByLastUse;
    SubsequenceByUse(EntriesOf(c), uses, p);
    UseGoesLast(EntriesOf(c)[..p] + EntriesOf(c)[p + 1..], uses, EntriesOf(c)[p]);
  }

  lemma OtherKeys<K, V>(c: Containers<K, V>, p: nat)
    requires Agree(c) && p < |c.list|
    ensures var rest := EntriesOf(c)[..p] + EntriesOf(c)[p + 1..];
            forall i :: 0 <= i < |rest| ==> rest[i].key != EntriesOf(c)[p].key
  {
  }

  lemma AbsentKey<K, V>(c: Containers<K, V>, key: K)
    requires Agree(c) && key !in c.index
    ensures forall i :: 0 <= i < |EntriesOf(c)| ==> EntriesOf(c)[i].key != key
  {
  }

  lemma {:induction false} WithoutLast(list: seq<nat>, id: nat)
    requires id !in list
    ensures Without(list + [id], id) == list
  {
    if list != [] {
      assert (list + [id])[1..] == list[1..] + [id];
      WithoutLast(list[1..], id);
    }
  }

  /** Inserting a key that is present leaves its first entry in the list for good: no later Find or Erase of the key reaches it. */
  lemma SecondInsertOrphansTheFirst<K, V>(c: Containers<K, V>, id: nat, key: K, value: V)
    requires Agree(c) && id !in c.nodes && key in c.index
    ensures var d := Erased(Inserted(c, id, key, value), key);
            && key !in d.index && c.index[key] in d.list && d.list == c.list
            && c.index[key] in d.nodes && d.nodes[c.index[key]].key == key
  {
    WithoutLast(c.list, id);
    assert c.index[key] in c.nodes;
  }

  // ----- between the posting of a Replace and its run -----

  /** What can happen to the cache in between; Locate is a Find or an Insert. */
  datatype Use<K, V> = DoFind(key: K) | DoInsert(key: K, value: V) | DoErase(key: K)

  /** The containers after the uses in order; new nodes are named from `id` on. */
  function After<K, V>(c: Containers<K, V>, id: nat, uses: seq<Use<K, V>>): Containers<K, V>
    decreases |uses|
  {
    if uses == [] then c
    else
      match uses[0]
      case DoFind(key) => After(if key in c.index then Touched(c, key) else c, id, uses[1..])
      case DoInsert(key, value) => After(Inserted(c, id, key, value), id + 1, uses[1..])
      case DoErase(key) => After(Erased(c, key), id, uses[1..])
  }

  /** Keys are inserted only when they are absent. */
  predicate Proper<K, V>(c: Containers<K, V>, id: nat, uses: seq<Use<K, V>>)
    decreases |uses|
  {
    if uses == [] then true
    else
      match uses[0]
      case DoFind(key) => Proper(if key in c.index then Touched(c, key) else c, id, uses[1..])
      case DoInsert(key, value) => key !in c.index && Proper(Inserted(c, id, key, value), id + 1, uses[1..])
      case DoErase(key) => Proper(Erased(c, key), id, uses[1..])
  }

  function Insertions<K, V>(uses: seq<Use<K, V>>): nat
  {
    if uses == [] then 0 else (if uses[0].DoInsert? then 1 else 0) + Insertions(uses[1..])
  }

  /** The erasures that found their key. */
  function Erasures<K, V>(c: Containers<K, V>, id: nat, uses: seq<Use<K, V>>): nat
    decreases |uses|
  {
    if uses == [] then 0
    else
      match uses[0]
      case DoFind(key) => Erasures(if key in c.index then Touched(c, key) else c, id, uses[1..])
      case DoInsert(key, value) => Erasures(Inserted(c, id, key, value), id + 1, uses[1..])
      case DoErase(key) => (if key in c.index then 1 else 0) + Erasures(Erased(c, key), id, uses[1..])
  }

  lemma OneMoreKey<K>(index: map<K, nat>, key: K, id: nat)
    ensures key !in index ==> |index[key := id]| == |index| + 1
    ensures key in index ==> |index - {key}| == |index| - 1
  {
    assert index[key := id].Keys == index.Keys + {key};
    assert (index - {key}).Keys == index.Keys - {key};
  }

  /** The size moves by the insertions and by the erasures that found their key. */
  lemma {:induction false} SizeAfter<K, V>(c: Containers<K, V>, id: nat, uses: seq<Use<K, V>>)
    requires Proper(c, id, uses)
    ensures |After(c, id, uses).index| + Erasures(c, id, uses) == |c.index| + Insertions(uses)
    decreases |uses|
  {
    hide Without;
    if uses != [] {
      match uses[0]
      case DoFind(key) => SizeAfter(if key in c.index then Touched(c, key) else c, id, uses[1..]);
      case DoInsert(key, value) =>
        OneMoreKey(c.index, key, id);
        SizeAfter(Inserted(c, id, key, value), id + 1, uses[1..]);
      case DoErase(key) =>
        OneMoreKey(c.index, key, 0);
        SizeAfter(Erased(c, key), id, uses[1..]);
    }
  }

  const SIZE_T: nat := 0x1_0000_0000_0000_0000

  /** `map_.size() - max_size_` in an unsigned 64-bit number. */
  function ReplaceCount(size: nat, maxSize: nat): nat
  {
    (size - maxSize) % SIZE_T
  }

  /** The difference is a number of entries that the list has exactly when there are at least max_size_;
      otherwise it wraps to more than there are, and std::advance runs off the list. */
  lemma CountIsInsideIff(size: nat, maxSize: nat)
    requires size < SIZE_T && maxSize < SIZE_T
    ensures ReplaceCount(size, maxSize) <= size <==> size >= maxSize
    ensures size < maxSize ==> ReplaceCount(size, maxSize) == SIZE_T - (maxSize - size)
  {
  }

  /** A Replace that is posted with `excess` entries too many, and runs after any uses of the cache: what it
      takes from the list is there exactly when the erasures that found their key do not exceed the excess
      and the insertions. */
  lemma PostedReplaceIsSafeIff<K, V>(c: Containers<K, V>, id: nat, uses: seq<Use<K, V>>, maxSize: nat, excess: nat)
    requires Proper(c, id, uses) && |c.index| == maxSize + excess && |c.index| + Insertions(uses) < SIZE_T
    ensures var size := |After(c, id, uses).index|;
            && (size >= maxSize <==> Erasures(c, id, uses) <= excess + Insertions(uses))
            && (ReplaceCount(size, maxSize) <= size <==> Erasures(c, id, uses) <= excess + Insertions(uses))
  {
    SizeAfter(c, id, uses);
    CountIsInsideIff(|After(c, id, uses).index|, maxSize);
  }

  /** The methods of the cache do what the uses say. */
  method Drive<K(==), V>(cache: HashCache<K, V>, uses: seq<Use<K, V>>)
    requires cache.Valid() && Proper(cache.c, cache.nextId, uses)
    modifies cache
    ensures cache.Valid() && cache.c == After(old(cache.c), old(cache.nextId), uses)
    ensures |cache.c.index| + Erasures(old(cache.c), old(cache.nextId), uses) == |old(cache.c).index| + Insertions(uses)
  {
    hide HashCache.Valid, Touched, Inserted, Erased;
    SizeAfter(cache.c, cache.nextId, uses);
    var i := 0;
    assert uses[0..] == uses;
    while i < |uses|
      invariant i <= |uses| && cache.Valid() && Proper(cache.c, cache.nextId, uses[i..])
      invariant After(cache.c, cache.nextId, uses[i..]) == After(old(cache.c), old(cache.nextId), uses)
    {
      assert uses[i..][1..] == uses[i + 1..];
      match uses[i] {
        case DoFind(key) => var value := cache.Find(key);
        case DoInsert(key, value) => var posted := cache.Insert(key, value);
        case DoErase(key) => cache.Erase(key);
      }
      i := i + 1;
    }
  }

  /** An instance, through the methods: two insertions into a cache for one entry post a Replace, and after
      two erasures there are fewer entries than max_size_. */
  method PostedReplaceCanComeTooLate<K(==), V>(a: K, b: K, value: V) returns (cache: HashCache<K, V>)
    requires a != b
    ensures fresh(cache) && cache.Valid() && cache.replacing && |cache.c.index| < cache.maxSize
  {
    hide Agree, Good, EntriesOf, Without;
    cache := new HashCache(1, value);
    var posted := cache.Insert(a, value);
    posted := cache.Insert(b, value);
    assert cache.c.index == map[a := 0, b := 1];
    assert cache.c.index.Keys == {a, b};
    assert |cache.c.index| == |{a, b}| == 2;
    cache.Erase(a);
    cache.Erase(b);
    assert map[a := 0, b := 1] - {a} - {b} == map[];
  }
}
