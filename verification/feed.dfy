/** The event feed: one value sent to many channels, while channels come and go. */
module Feeds {
  import opened Options

  /** Removals interrupt a send on a channel of the feed's own, which no subscriber can have. */
  datatype Channel = RemoveSub | Subscriber(id: nat)

  /** A select case: a channel and the value to be sent on it. */
  datatype Case<V> = Case(chan: Channel, value: Option<V>)

  // ----- Case lists -----

  /** The channels of the cases, each as often as it occurs. */
  ghost function Bag<V>(cs: seq<Case<V>>): multiset<Channel> {
    if |cs| == 0 then multiset{} else Bag(cs[..|cs| - 1]) + multiset{cs[|cs| - 1].chan}
  }

  /** All cases but the first, up to n, carry the value. */
  ghost predicate Loaded<V>(cs: seq<Case<V>>, n: nat, value: Option<V>) {
    n <= |cs| && forall i :: 1 <= i < n ==> cs[i].value == value
  }

  lemma BagOne<V>(c: Case<V>)
    ensures Bag([c]) == multiset{c.chan}
  {
    assert [c][..0] == [];
  }

  lemma {:induction false} BagConcat<V>(a: seq<Case<V>>, b: seq<Case<V>>)
    ensures Bag(a + b) == Bag(a) + Bag(b)
  {
    if |b| == 0 {
      assert a + b == a;
    } else {
      assert (a + b)[..|a + b| - 1] == a + b[..|b| - 1];
      BagConcat(a, b[..|b| - 1]);
    }
  }

  lemma {:induction false} BagAt<V>(cs: seq<Case<V>>, i: nat)
    requires i < |cs|
    ensures cs[i].chan in Bag(cs)
  {
    if i < |cs| - 1 {
      BagAt(cs[..|cs| - 1], i);
    }
  }

  lemma {:induction false} BagSize<V>(cs: seq<Case<V>>)
    ensures |Bag(cs)| == |cs|
  {
    if |cs| > 0 {
      BagSize(cs[..|cs| - 1]);
    }
  }

  method Find<V>(cs: seq<Case<V>>, ch: Channel) returns (index: int)
    ensures -1 <= index < |cs|
    ensures index == -1 <==> ch !in Bag(cs)
    ensures index >= 0 ==> cs[index].chan == ch && ch !in Bag(cs[..index])
  {
    index := 0;
    while index < |cs|
      invariant 0 <= index <= |cs|
      invariant ch !in Bag(cs[..index])
    {
      if cs[index].chan == ch {
        BagAt(cs, index);
        return;
      }
      assert cs[..index + 1][..index] == cs[..index];
      index := index + 1;
    }
    assert cs[..index] == cs;
    index := -1;
  }

  function Delete<V>(cs: seq<Case<V>>, index: nat): seq<Case<V>>
    requires index < |cs|
  {
    cs[..index] + cs[index + 1..]
  }

  /** Swaps the case with the last of the first n. */
  function Deactivate<V>(cs: seq<Case<V>>, n: nat, index: nat): seq<Case<V>>
    requires index < n <= |cs|
  {
    cs[index := cs[n - 1]][n - 1 := cs[index]]
  }

  lemma DeleteRemoves<V>(cs: seq<Case<V>>, index: nat)
    requires index < |cs|
    ensures Bag(cs) == Bag(Delete(cs, index)) + multiset{cs[index].chan}
  {
    hide Bag;
    var a, c, b := cs[..index], cs[index], cs[index + 1..];
    assert cs == a + [c] + b;
    BagConcat(a + [c], b);
    BagConcat(a, [c]);
    BagConcat(a, b);
    BagOne(c);
  }

  /** Deleting shifts the later cases down; what is left of the first n stays in front. */
  lemma DeletePrefix<V>(cs: seq<Case<V>>, n: nat, index: nat)
    requires index < |cs| && n <= |cs|
    ensures index < n ==> Bag(cs[..n]) == Bag(Delete(cs, index)[..n - 1]) + multiset{cs[index].chan}
    ensures index >= n ==> Delete(cs, index)[..n] == cs[..n]
  {
    hide Bag;
    if index < n {
      assert Delete(cs, index)[..n - 1] == Delete(cs[..n], index);
      DeleteRemoves(cs[..n], index);
    }
  }

  lemma DeactivatePrefix<V>(cs: seq<Case<V>>, n: nat, index: nat)
    requires index < n <= |cs|
    ensures Bag(cs[..n]) == Bag(Deactivate(cs, n, index)[..n - 1]) + multiset{cs[index].chan}
  {
    hide Bag;
    var swapped := Deactivate(cs, n, index);
    DeleteRemoves(cs[..n], index);
    if index == n - 1 {
      assert swapped[..n - 1] == Delete(cs[..n], index);
    } else {
      var a, b, last := cs[..index], cs[index + 1..n - 1], [cs[n - 1]];
      assert swapped[..n - 1] == a + last + b;
      assert Delete(cs[..n], index) == a + b + last;
      BagConcat(a + last, b);
      BagConcat(a, last);
      BagConcat(a + b, last);
      BagConcat(a, b);
    }
  }

  /** Swapping a case out of the first n takes its channel, and no other, out of them. */
  lemma DeactivateMoves<V>(cs: seq<Case<V>>, n: nat, index: nat)
    requires index < n <= |cs|
    ensures Bag(Deactivate(cs, n, index)) == Bag(cs)
    ensures Bag(cs[..n]) == Bag(Deactivate(cs, n, index)[..n - 1]) + multiset{cs[index].chan}
  {
    hide Bag;
    var swapped, c := Deactivate(cs, n, index), cs[index];
    DeactivatePrefix(cs, n, index);
    assert swapped == swapped[..n - 1] + [c] + cs[n..];
    assert cs == cs[..n] + cs[n..];
    BagConcat(cs[..n], cs[n..]);
    BagConcat(swapped[..n - 1] + [c], cs[n..]);
    BagConcat(swapped[..n - 1], [c]);
    BagOne(c);
  }

  /** The feed's own channel has one case of its own. */
  function Own(ch: Channel): nat {
    if ch == RemoveSub then 1 else 0
  }

  // ----- What a send in progress keeps -----

  /** All deliveries are of the value. */
  ghost predicate AllCarry<V>(delivered: seq<Case<V>>, value: V) {
    forall i :: 0 <= i < |delivered| ==> delivered[i].value == Some(value)
  }

  /** A send that started on the channels `initial` has delivered to some of them; `removed` were
      unsubscribed meanwhile, `skipped` of them before their turn. The first n cases are active. */
  ghost predicate Sending<V>(cs: seq<Case<V>>, n: nat, value: V, initial: multiset<Channel>, delivered: seq<Case<V>>,
                             skipped: multiset<Channel>, removed: multiset<Channel>) {
    && 1 <= n <= |cs| && cs[0].chan == RemoveSub && Loaded(cs, n, Some(value)) && AllCarry(delivered, value)
    && skipped <= removed
    && (forall ch :: Bag(cs)[ch] + removed[ch] == initial[ch] + Own(ch))
    && (forall ch :: Bag(cs[..n])[ch] + Bag(delivered)[ch] + skipped[ch] == initial[ch] + Own(ch))
  }

  lemma DeliverStep<V>(cs: seq<Case<V>>, n: nat, value: V, initial: multiset<Channel>, delivered: seq<Case<V>>,
                       skipped: multiset<Channel>, removed: multiset<Channel>, index: nat)
    requires Sending(cs, n, value, initial, delivered, skipped, removed) && 1 <= index < n
    ensures Sending(Deactivate(cs, n, index), n - 1, value, initial, delivered + [cs[index]], skipped, removed)
  {
    hide Bag;
    DeactivateMoves(cs, n, index);
    BagConcat(delivered, [cs[index]]);
    BagOne(cs[index]);
  }

  lemma RemoveStep<V>(cs: seq<Case<V>>, n: nat, value: V, initial: multiset<Channel>, delivered: seq<Case<V>>,
                      skipped: multiset<Channel>, removed: multiset<Channel>, index: nat)
    requires Sending(cs, n, value, initial, delivered, skipped, removed) && 1 <= index < |cs|
    ensures var ch := multiset{cs[index].chan};
            Sending(Delete(cs, index), if index < n then n - 1 else n, value, initial, delivered,
                    if index < n then skipped + ch else skipped, removed + ch)
  {
    hide Bag;
    DeleteRemoves(cs, index);
    DeletePrefix(cs, n, index);
  }

  /** When only the feed's own case is active, every subscription was served or skipped. */
  lemma Finished<V>(cs: seq<Case<V>>, value: V, initial: multiset<Channel>, delivered: seq<Case<V>>,
                    skipped: multiset<Channel>, removed: multiset<Channel>)
    requires Sending(cs, 1, value, initial, delivered, skipped, removed)
    ensures Bag(delivered) + skipped == initial && |delivered| == |initial| - |skipped|
  {
    hide Bag;
    assert cs[..1] == [cs[0]];
    BagOne(cs[0]);
    BagSize(delivered);
    forall ch
      ensures (Bag(delivered) + skipped)[ch] == initial[ch]
    {
      assert Bag(cs[..1])[ch] == Own(ch);
    }
    assert Bag(delivered) + skipped == initial;
  }

  /** A channel gets the value as often as it was subscribed, less the subscriptions that were removed
      before their turn; so a channel of which none was removed gets it once for each. */
  lemma ExactlyOnce<V>(initial: multiset<Channel>, delivered: seq<Case<V>>, skipped: multiset<Channel>, removed: multiset<Channel>,
                       ch: Channel)
    requires Bag(delivered) + skipped == initial && skipped <= removed
    ensures Bag(delivered)[ch] + skipped[ch] == initial[ch] <= Bag(delivered)[ch] + removed[ch]
    ensures ch !in removed ==> Bag(delivered)[ch] == initial[ch]
  {
    hide Bag;
    assert (Bag(delivered) + skipped)[ch] == Bag(delivered)[ch] + skipped[ch];
    assert skipped[ch] <= removed[ch];
  }

  // ----- Setting the values of all cases -----

  /** The same channels, all but the first with the given value. */
  ghost predicate Reloaded<V>(cs: seq<Case<V>>, cs': seq<Case<V>>, value: Option<V>) {
    && |cs'| == |cs| && Loaded(cs', |cs'|, value)
    && forall i :: 0 <= i < |cs| ==> cs'[i].chan == cs[i].chan
  }

  method Reload<V>(cs: seq<Case<V>>, value: Option<V>) returns (r: seq<Case<V>>)
    ensures Reloaded(cs, r, value)
  {
    r := cs;
    var i := 1;
    while i < |cs|
      invariant 1 <= i && |r| == |cs| && forall k :: 1 <= k < i && k < |cs| ==> r[k].value == value
      invariant forall k :: 0 <= k < |cs| ==> r[k].chan == cs[k].chan
    {
      r := r[i := r[i].(value := value)];
      i := i + 1;
    }
  }

  lemma {:induction false} SameChannels<V>(cs: seq<Case<V>>, cs': seq<Case<V>>)
    requires |cs'| == |cs| && forall i :: 0 <= i < |cs| ==> cs'[i].chan == cs[i].chan
    ensures Bag(cs') == Bag(cs)
  {
    if |cs| > 0 {
      SameChannels(cs[..|cs| - 1], cs'[..|cs| - 1]);
    }
  }

  /** Every live subscription has one case, in the inbox or among the cases for sending. */
  ghost predicate Registered<V>(cs: seq<Case<V>>, inbox: seq<Case<V>>, live: multiset<Channel>) {
    && |cs| >= 1 && cs[0].chan == RemoveSub && RemoveSub !in live
    && forall ch :: Bag(cs)[ch] + Bag(inbox)[ch] == live[ch] + Own(ch)
  }

  lemma RegisteredStart<V>()
    ensures Registered<V>([Case(RemoveSub, None)], [], multiset{})
  {
    BagOne<V>(Case(RemoveSub, None));
  }

  lemma RegisteredSubscribe<V>(cs: seq<Case<V>>, inbox: seq<Case<V>>, live: multiset<Channel>, c: Case<V>)
    requires Registered(cs, inbox, live) && c.chan != RemoveSub
    ensures Registered(cs, inbox + [c], live + multiset{c.chan})
  {
    hide Bag;
    BagConcat(inbox, [c]);
    BagOne(c);
  }

  lemma RegisteredDelete<V>(cs: seq<Case<V>>, inbox: seq<Case<V>>, live: multiset<Channel>, index: nat)
    requires Registered(cs, inbox, live) && index < |inbox| && inbox[index].chan != RemoveSub
    ensures Registered(cs, Delete(inbox, index), live - multiset{inbox[index].chan})
  {
    hide Bag;
    DeleteRemoves(inbox, index);
    assert live[inbox[index].chan] > 0;
  }

  lemma RegisteredRemove<V>(cs: seq<Case<V>>, inbox: seq<Case<V>>, live: multiset<Channel>, index: nat)
    requires Registered(cs, inbox, live) && 1 <= index < |cs| && cs[index].chan != RemoveSub
    ensures cs[index].chan in live && Registered(Delete(cs, index), inbox, live - multiset{cs[index].chan})
  {
    hide Bag;
    DeleteRemoves(cs, index);
    assert live[cs[index].chan] > 0;
  }

  lemma RegisteredMerge<V>(cs: seq<Case<V>>, inbox: seq<Case<V>>, live: multiset<Channel>)
    requires Registered(cs, inbox, live)
    ensures Registered(cs + inbox, [], live)
  {
    BagConcat(cs, inbox);
  }

  /** Only the channels matter. */
  lemma RegisteredAlike<V>(cs: seq<Case<V>>, cs': seq<Case<V>>, inbox: seq<Case<V>>, live: multiset<Channel>)
    requires Registered(cs, inbox, live) && Bag(cs') == Bag(cs) && |cs'| >= 1 && cs'[0].chan == RemoveSub
    ensures Registered(cs', inbox, live)
  {
    hide Bag;
  }

  lemma HeadCase<V>(cs: seq<Case<V>>, inbox: seq<Case<V>>, live: multiset<Channel>)
    requires Registered(cs, inbox, live)
    ensures |cs| >= 1 && cs[0].chan == RemoveSub
  {
  }

  /** Only the first case is the feed's own. */
  lemma OwnCase<V>(cs: seq<Case<V>>, inbox: seq<Case<V>>, live: multiset<Channel>, k: nat)
    requires Registered(cs, inbox, live) && 1 <= k < |cs|
    ensures cs[k].chan != RemoveSub && cs[k].chan in Bag(cs)
  {
    hide Bag;
    BagAt(cs, k);
    DeleteRemoves(cs, k);
    BagAt(Delete(cs, k), 0);
    assert Bag(cs)[RemoveSub] + Bag(inbox)[RemoveSub] == 1;
  }

  lemma SendingStart<V>(cs: seq<Case<V>>, value: V, initial: multiset<Channel>)
    requires Registered(cs, [], initial) && Loaded(cs, |cs|, Some(value))
    ensures Sending(cs, |cs|, value, initial, [], multiset{}, multiset{})
  {
    assert cs[..|cs|] == cs;
    assert Bag<V>([]) == multiset{};
    hide Bag;
  }

  lemma SendingBounds<V>(cs: seq<Case<V>>, n: nat, value: V, initial: multiset<Channel>, delivered: seq<Case<V>>,
                         skipped: multiset<Channel>, removed: multiset<Channel>)
    requires Sending(cs, n, value, initial, delivered, skipped, removed)
    ensures 1 <= n <= |cs| && skipped <= removed && AllCarry(delivered, value)
    ensures forall ch :: Bag(cs)[ch] + removed[ch] == initial[ch] + Own(ch)
  {
  }

  /** The first case with a channel is among the first n exactly when the channel is. */
  lemma PrefixHas<V>(cs: seq<Case<V>>, n: nat, index: nat)
    requires index < |cs| && n <= |cs| && cs[index].chan !in Bag(cs[..index])
    ensures cs[index].chan in Bag(cs[..n]) <==> index < n
  {
    hide Bag;
    if index < n {
      BagAt(cs[..n], index);
    } else {
      assert cs[..index] == cs[..n] + cs[n..index];
      BagConcat(cs[..n], cs[n..index]);
    }
  }

  class Feed<V> {
    var inbox: seq<Case<V>>
    var sendCases: seq<Case<V>>
    ghost var live: multiset<Channel>

    ghost predicate Valid()
      reads this
    {
      Registered(sendCases, inbox, live)
    }

    constructor ()
      ensures Valid() && live == multiset{}
    {
      inbox, sendCases, live := [], [Case(RemoveSub, None)], multiset{};
      new;
      RegisteredStart<V>();
    }

    /** A channel may be subscribed more than once. */
    method Subscribe(id: nat)
      requires Valid()
      modifies `inbox, `live
      ensures Valid() && live == old(live) + multiset{Subscriber(id)} && inbox == old(inbox) + [Case(Subscriber(id), None)]
    {
      var ch := Subscriber(id);
      RegisteredSubscribe(sendCases, inbox, live, Case(ch, None));
      inbox := inbox + [Case(ch, None)];
      live := live + multiset{ch};
    }

    /** Unsubscribes while no send is in progress. The channel is found in one of the two lists. */
    method Remove(ch: Channel)
      requires Valid() && ch in live
      modifies this
      ensures Valid() && live == old(live) - multiset{ch}
    {
      hide Bag;
      var index := Find(inbox, ch);
      if index != -1 {
        RegisteredDelete(sendCases, inbox, live, index);
        inbox := Delete(inbox, index);
      } else {
        index := Find(sendCases, ch);
        assert Bag(sendCases)[ch] > 0;
        RegisteredRemove(sendCases, inbox, live, index);
        sendCases := Delete(sendCases, index);
      }
      live := live - multiset{ch};
    }

    /** What another goroutine may do to the inbox at any moment of a send: subscribe a channel, or
        remove one that still waits there. */
    method InterfereOnce()
      requires Valid()
      modifies `inbox, `live
      ensures Valid()
    {
      hide Registered, Bag;
      var id: nat :| true;
      var subscribes: bool := *;
      if subscribes {
        Subscribe(id);
      } else {
        var ch := Subscriber(id);
        var waiting := Find(inbox, ch);
        if waiting >= 0 {
          RegisteredDelete(sendCases, inbox, live, waiting);
          inbox := Delete(inbox, waiting);
          live := live - multiset{ch};
        }
      }
    }

    method Interfere()
      requires Valid()
      modifies `inbox, `live
      ensures Valid()
    {
      hide Valid;
      var steps: nat :| true;
      for _ := 0 to steps
        invariant Valid()
      {
        InterfereOnce();
      }
    }

    /** A channel took the value: its case moves behind the active ones. */
    method DeliverTo(value: V, n: nat, index: nat, ghost initial: multiset<Channel>, ghost delivered: seq<Case<V>>,
                     ghost skipped: multiset<Channel>, ghost removed: multiset<Channel>)
      returns (ghost delivered': seq<Case<V>>)
      requires Valid() && Sending(sendCases, n, value, initial, delivered, skipped, removed) && 1 <= index < n
      modifies `sendCases
      ensures Valid() && Sending(sendCases, n - 1, value, initial, delivered', skipped, removed)
      ensures delivered' == delivered + [old(sendCases[index])] && |sendCases| == old(|sendCases|)
    {
      hide Bag;
      delivered' := delivered + [sendCases[index]];
      DeliverStep(sendCases, n, value, initial, delivered, skipped, removed, index);
      DeactivateMoves(sendCases, n, index);
      RegisteredAlike(sendCases, Deactivate(sendCases, n, index), inbox, live);
      sendCases := Deactivate(sendCases, n, index);
    }

    /** A removal interrupts the send: its case is looked up, which cannot fail, and deleted. */
    method RemoveDuring(value: V, n: nat, ch: Channel, ghost initial: multiset<Channel>, ghost delivered: seq<Case<V>>,
                        ghost skipped: multiset<Channel>, ghost removed: multiset<Channel>)
      returns (n': nat, ghost skipped': multiset<Channel>, ghost removed': multiset<Channel>)
      requires Valid() && Sending(sendCases, n, value, initial, delivered, skipped, removed)
      requires ch in Bag(sendCases) && ch != RemoveSub && n <= |sendCases|
      modifies `sendCases, `live
      ensures Valid() && Sending(sendCases, n', value, initial, delivered, skipped', removed')
      ensures n' <= n && n' <= |sendCases| == old(|sendCases|) - 1 && live == old(live) - multiset{ch}
      ensures removed' == removed + multiset{ch}
      ensures skipped' == if ch in old(Bag(sendCases[..n])) then skipped + multiset{ch} else skipped
    {
      hide Bag, Sending, Registered;
      var index := Find(sendCases, ch);
      HeadCase(sendCases, inbox, live);
      RegisteredRemove(sendCases, inbox, live, index);
      RemoveStep(sendCases, n, value, initial, delivered, skipped, removed, index);
      PrefixHas(sendCases, n, index);
      sendCases := Delete(sendCases, index);
      live := live - multiset{ch};
      n', skipped', removed' := n, skipped, removed + multiset{ch};
      if index >= 0 && index < n {
        n', skipped' := n - 1, skipped + multiset{ch};
      }
    }

    /** Offers the value to every active channel without blocking; any of them may accept. */
    method TrySends(value: V, n0: nat, ghost initial: multiset<Channel>, ghost delivered0: seq<Case<V>>,
                    ghost skipped: multiset<Channel>, ghost removed: multiset<Channel>)
      returns (n: nat, nsent: nat, ghost delivered: seq<Case<V>>)
      requires Valid() && Sending(sendCases, n0, value, initial, delivered0, skipped, removed)
      modifies this
      ensures Valid() && Sending(sendCases, n, value, initial, delivered, skipped, removed)
      ensures 1 <= n <= n0 && n <= |sendCases| == old(|sendCases|) && |delivered| == |delivered0| + nsent
    {
      hide Registered, Bag, Sending;
      n, nsent, delivered := n0, 0, delivered0;
      var i := 1;
      SendingBounds(sendCases, n, value, initial, delivered, skipped, removed);
      while i < n
        invariant 1 <= i && 1 <= n <= n0 && n <= |sendCases| == old(|sendCases|)
        invariant Valid() && Sending(sendCases, n, value, initial, delivered, skipped, removed)
        invariant |delivered| == |delivered0| + nsent
        decreases n - i
      {
        Interfere();
        var accepted: bool := *;
        if accepted {
          nsent := nsent + 1;
          delivered := DeliverTo(value, n, i, initial, delivered, skipped, removed);
          n := n - 1;
        } else {
          i := i + 1;
        }
      }
    }

    /** Sends the value. Whichever channels are ready and whoever subscribes or unsubscribes
        meanwhile, each subscription live at the start gets the value exactly once, unless it was
        removed before its turn; the result counts the deliveries, and the cases that are left are
        the initial ones without the removed. */
    method Send(value: V)
      returns (nsent: nat, ghost delivered: seq<Case<V>>, ghost skipped: multiset<Channel>, ghost removed: multiset<Channel>)
      requires Valid()
      modifies this
      ensures Valid() && AllCarry(delivered, value)
      ensures Bag(delivered) + skipped == old(live)
      ensures nsent == |delivered| == |old(live)| - |skipped|
      ensures skipped <= removed && forall ch :: Bag(sendCases)[ch] + removed[ch] == old(live)[ch] + Own(ch)
      ensures Loaded(sendCases, |sendCases|, None)
    {
      hide Registered, Bag, Sending, AllCarry, Loaded;
      ghost var initial := live;
      Load(value);
      var n: nat := |sendCases|;
      nsent, delivered, skipped, removed := 0, [], multiset{}, multiset{};
      while true
        invariant Valid() && Sending(sendCases, n, value, initial, delivered, skipped, removed) && n <= |sendCases|
        invariant nsent == |delivered|
        decreases n + |sendCases|
      {
        var sent: nat;
        n, sent, delivered := TrySends(value, n, initial, delivered, skipped, removed);
        nsent := nsent + sent;
        if n == 1 {
          break;
        }
        Interfere();
        var chosen: nat :| chosen < n;
        if chosen == 0 {
          var k: nat :| 1 <= k < |sendCases|;
          OwnCase(sendCases, inbox, live, k);
          n, skipped, removed := RemoveDuring(value, n, sendCases[k].chan, initial, delivered, skipped, removed);
        } else {
          delivered := DeliverTo(value, n, chosen, initial, delivered, skipped, removed);
          n := n - 1;
          nsent := nsent + 1;
        }
      }
      Finished(sendCases, value, initial, delivered, skipped, removed);
      SendingBounds(sendCases, n, value, initial, delivered, skipped, removed);
      Unload();
    }

    /** Takes over the inbox and sets the value on all cases. */
    method Load(value: V)
      requires Valid()
      modifies `inbox, `sendCases
      ensures Valid() && Sending(sendCases, |sendCases|, value, live, [], multiset{}, multiset{})
    {
      hide Bag;
      RegisteredMerge(sendCases, inbox, live);
      sendCases := sendCases + inbox;
      inbox := [];
      var loaded := Reload(sendCases, Some(value));
      SameChannels(sendCases, loaded);
      RegisteredAlike(sendCases, loaded, inbox, live);
      sendCases := loaded;
      SendingStart(sendCases, value, live);
    }

    /** Forgets the sent value. */
    method Unload()
      requires Valid()
      modifies `sendCases
      ensures Valid() && Loaded(sendCases, |sendCases|, None) && Bag(sendCases) == old(Bag(sendCases))
    {
      hide Bag;
      var unloaded := Reload(sendCases, None);
      SameChannels(sendCases, unloaded);
      RegisteredAlike(sendCases, unloaded, inbox, live);
      sendCases := unloaded;
    }
  }
}
