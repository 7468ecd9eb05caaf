/** Lists of sent packets in ascending order of packet number. */
module PacketLists {
  import opened Basics

  /** A sent packet; `retransmittable` when it holds a frame that has to reach the peer. */
  datatype Packet = Packet(number: nat, length: nat, sendTime: int, retransmittable: bool)

  /** Strictly ascending numbers, all above `low`. */
  predicate Ascending(low: nat, list: seq<Packet>)
    decreases |list|
  {
    list == [] || (low < list[0].number && Ascending(list[0].number, list[1..]))
  }

  /** The bytes of all packets together. */
  function Total(list: seq<Packet>): nat
    decreases |list|
  {
    if list == [] then 0 else list[0].length + Total(list[1..])
  }

  function Filter(list: seq<Packet>, keep: Packet -> bool): seq<Packet>
    decreases |list|
  {
    if list == [] then [] else (if keep(list[0]) then [list[0]] else []) + Filter(list[1..], keep)
  }

  function Not(keep: Packet -> bool): Packet -> bool {
    p => !keep(p)
  }

  /** The list without its packet number n. */
  function Remove(list: seq<Packet>, n: nat): seq<Packet>
    decreases |list|
  {
    if list == [] then [] else if list[0].number == n then list[1..] else [list[0]] + Remove(list[1..], n)
  }

  /** The list without its first k packets that `drop` picks. */
  function DropFirst(list: seq<Packet>, drop: Packet -> bool, k: nat): seq<Packet>
    decreases |list|
  {
    if list == [] then []
    else if k > 0 && drop(list[0]) then DropFirst(list[1..], drop, k - 1)
    else [list[0]] + DropFirst(list[1..], drop, k)
  }

  lemma FilterHead(list: seq<Packet>, keep: Packet -> bool)
    requires list != []
    ensures keep(list[0]) ==> Filter(list, keep) == [list[0]] + Filter(list[1..], keep)
    ensures !keep(list[0]) ==> Filter(list, keep) == Filter(list[1..], keep)
  {
  }

  lemma TotalCons(p: Packet, rest: seq<Packet>)
    ensures Total([p] + rest) == p.length + Total(rest)
  {
    assert ([p] + rest)[1..] == rest;
  }

  /** A filter and its complement share out the bytes. */
  lemma {:induction false} FilterTotal(list: seq<Packet>, keep: Packet -> bool)
    ensures Total(list) == Total(Filter(list, keep)) + Total(Filter(list, Not(keep)))
    decreases |list|
  {
    if list != [] {
      FilterTotal(list[1..], keep);
      FilterHead(list, keep);
      FilterHead(list, Not(keep));
      TotalCons(list[0], Filter(list[1..], keep));
      TotalCons(list[0], Filter(list[1..], Not(keep)));
    }
  }

  /** A filter and its complement share out the packets. */
  lemma {:induction false} FilterMultiset(list: seq<Packet>, keep: Packet -> bool)
    ensures multiset(list) == multiset(Filter(list, keep)) + multiset(Filter(list, Not(keep)))
    decreases |list|
  {
    if list != [] {
      FilterMultiset(list[1..], keep);
      FilterHead(list, keep);
      FilterHead(list, Not(keep));
      MultisetCons(list[0], list[1..]);
      MultisetCons(list[0], Filter(list[1..], keep));
      MultisetCons(list[0], Filter(list[1..], Not(keep)));
      assert list == [list[0]] + list[1..];
    }
  }

  lemma MultisetCons(p: Packet, rest: seq<Packet>)
    ensures multiset([p] + rest) == multiset{p} + multiset(rest)
  {
  }

  lemma {:induction false} TotalConcat(a: seq<Packet>, b: seq<Packet>)
    ensures Total(a + b) == Total(a) + Total(b)
    decreases |a|
  {
    if a == [] {
      assert a + b == b;
    } else {
      assert (a + b)[1..] == a[1..] + b;
      TotalConcat(a[1..], b);
    }
  }

  lemma {:induction false} FilterMembers(list: seq<Packet>, keep: Packet -> bool, p: Packet)
    ensures p in Filter(list, keep) <==> p in list && keep(p)
    decreases |list|
  {
    if list != [] {
      FilterMembers(list[1..], keep, p);
      assert p in list <==> p == list[0] || p in list[1..];
    }
  }

  lemma {:induction false} AscendingWeaken(high: nat, low: nat, list: seq<Packet>)
    requires Ascending(high, list) && low <= high
    ensures Ascending(low, list)
  {
  }

  lemma {:induction false} AscendingFilter(low: nat, list: seq<Packet>, keep: Packet -> bool)
    requires Ascending(low, list)
    ensures Ascending(low, Filter(list, keep))
    decreases |list|
  {
    if list != [] {
      AscendingFilter(list[0].number, list[1..], keep);
      var rest := Filter(list[1..], keep);
      if keep(list[0]) {
        assert ([list[0]] + rest)[1..] == rest;
      } else {
        assert [] + rest == rest;
        AscendingWeaken(list[0].number, low, rest);
      }
    }
  }

  lemma {:induction false} AscendingMember(low: nat, list: seq<Packet>, p: Packet)
    requires Ascending(low, list) && p in list
    ensures low < p.number
    decreases |list|
  {
    if p != list[0] {
      assert p in list[1..];
      AscendingMember(list[0].number, list[1..], p);
    }
  }

  lemma {:induction false} AscendingPush(low: nat, list: seq<Packet>, p: Packet)
    requires Ascending(low, list) && low < p.number && forall q :: q in list ==> q.number < p.number
    ensures Ascending(low, list + [p])
    decreases |list|
  {
    if list == [] {
      assert (list + [p])[1..] == [];
    } else {
      assert (list + [p])[1..] == list[1..] + [p];
      assert list[0] in list;
      AscendingPush(list[0].number, list[1..], p);
    }
  }

  lemma {:induction false} AscendingConcat(low: nat, a: seq<Packet>, b: seq<Packet>)
    requires Ascending(low, a + b)
    ensures Ascending(low, a) && Ascending(low, b)
    decreases |a|
  {
    if a == [] {
      assert a + b == b;
    } else {
      assert (a + b)[1..] == a[1..] + b;
      AscendingConcat(a[0].number, a[1..], b);
      AscendingWeaken(a[0].number, low, b);
    }
  }

  /** Removing, one by one, what a filter picked leaves what it did not pick. */
  lemma {:induction false} DropNext(low: nat, list: seq<Packet>, drop: Packet -> bool, k: nat)
    requires Ascending(low, list) && k < |Filter(list, drop)|
    ensures Remove(DropFirst(list, drop, k), Filter(list, drop)[k].number) == DropFirst(list, drop, k + 1)
    decreases |list|
  {
    var tail := list[1..];
    if drop(list[0]) {
      if k > 0 {
        DropNext(list[0].number, tail, drop, k - 1);
      } else {
        DropNone(tail, drop);
        DropNone(list, drop);
      }
    } else {
      DropNext(list[0].number, tail, drop, k);
      var p := Filter(tail, drop)[k];
      assert p in Filter(tail, drop);
      FilterMembers(tail, drop, p);
      AscendingMember(list[0].number, tail, p);
      RemoveLater(list[0], DropFirst(tail, drop, k), p.number);
    }
  }

  lemma RemoveLater(p: Packet, rest: seq<Packet>, n: nat)
    requires p.number != n
    ensures Remove([p] + rest, n) == [p] + Remove(rest, n)
  {
    assert ([p] + rest)[1..] == rest;
  }

  lemma {:induction false} DropNone(list: seq<Packet>, drop: Packet -> bool)
    ensures DropFirst(list, drop, 0) == list
    decreases |list|
  {
    if list != [] {
      DropNone(list[1..], drop);
    }
  }

  lemma {:induction false} DropAll(list: seq<Packet>, drop: Packet -> bool)
    ensures DropFirst(list, drop, |Filter(list, drop)|) == Filter(list, Not(drop))
    decreases |list|
  {
    if list != [] {
      DropAll(list[1..], drop);
    }
  }

  lemma {:induction false} FilterConcat(a: seq<Packet>, b: seq<Packet>, keep: Packet -> bool)
    ensures Filter(a + b, keep) == Filter(a, keep) + Filter(b, keep)
    decreases |a|
  {
    if a == [] {
      assert a + b == b;
    } else {
      assert (a + b)[1..] == a[1..] + b;
      FilterConcat(a[1..], b, keep);
      FilterHead(a, keep);
      FilterHead(a + b, keep);
      Assoc([a[0]], Filter(a[1..], keep), Filter(b, keep));
    }
  }

  lemma FilterPush(a: seq<Packet>, p: Packet, keep: Packet -> bool)
    ensures Filter(a + [p], keep) == Filter(a, keep) + if keep(p) then [p] else []
  {
    FilterConcat(a, [p], keep);
    assert [p][1..] == [];
  }

  lemma {:induction false} FilterNone(list: seq<Packet>, keep: Packet -> bool)
    requires forall p :: p in list ==> !keep(p)
    ensures Filter(list, keep) == []
    decreases |list|
  {
    if list != [] {
      assert list[0] in list;
      FilterNone(list[1..], keep);
    }
  }

  lemma {:induction false} AscendingPair(low: nat, list: seq<Packet>, i: nat, j: nat)
    requires Ascending(low, list) && i < j < |list|
    ensures list[i].number < list[j].number
    decreases j
  {
    if i == 0 {
      assert list[j] == list[1..][j - 1];
      AscendingMember(list[0].number, list[1..], list[j]);
    } else {
      AscendingPair(list[0].number, list[1..], i - 1, j - 1);
    }
  }
}
