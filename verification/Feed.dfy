/**
 One-to-many event delivery (event/feed.go). Send works on two slices of one array: `sendCases`, all
 subscriptions, and its prefix `cases`, those still to be served. Serving a subscription swaps it out of
 the prefix; unsubscribing during a send shifts it out of the array.
 */
module Feed {

  type Chan = nat

  /** The private channel on which Send is told to drop a subscription; it occupies slot 0. */
  const REMOVE_SUB: Chan := 0

  // ---------- Subscriptions and removal requests ----------

  /**
   What the two lists and the callers of Unsubscribe have, counted per channel. A channel may be subscribed
   more than once. `leaving` counts calls of remove that have not found their channel in the inbox.
   */
  datatype Subs = Subs(inbox: multiset<Chan>, sendCases: multiset<Chan>, live: multiset<Chan>, leaving: multiset<Chan>)

  predicate SubsAt(s: Subs, c: Chan) { s.inbox[c] + s.sendCases[c] == s.live[c] && s.leaving[c] <= s.sendCases[c] }

  ghost predicate SubsInv(s: Subs) { forall c: Chan {:trigger SubsAt(s, c)} :: SubsAt(s, c) }

  datatype Action = Subscribe(c: Chan) | CheckInbox(c: Chan) | Drop(c: Chan) | TakeInbox

  /** Each subscription is cancelled once, so there are never more removals than subscriptions. */
  predicate SubsEnabled(s: Subs, a: Action) {
    match a
    case Subscribe(_) => true
    case CheckInbox(c) => s.leaving[c] < s.live[c]
    case Drop(c) => c in s.leaving
    case TakeInbox => true
  }

  /** Dropping a channel that is not in sendCases would be an index panic. */
  predicate DropFindsChannel(s: Subs, a: Action) {
    a.Drop? ==> a.c in s.sendCases
  }

  function SubsStep(s: Subs, a: Action): Subs
    requires SubsEnabled(s, a)
  {
    match a
    case Subscribe(c) => s.(inbox := s.inbox + multiset{c}, live := s.live + multiset{c})
    case CheckInbox(c) =>
      if c in s.inbox then s.(inbox := s.inbox - multiset{c}, live := s.live - multiset{c})
      else s.(leaving := s.leaving + multiset{c})
    case Drop(c) =>
      s.(sendCases := s.sendCases - multiset{c}, live := s.live - multiset{c}, leaving := s.leaving - multiset{c})
    case TakeInbox => s.(sendCases := s.sendCases + s.inbox, inbox := multiset{})
  }

  predicate IsSubsRun(run: seq<Subs>, acts: seq<Action>) {
    && |run| == |acts| + 1
    && run[0] == Subs(multiset{}, multiset{}, multiset{}, multiset{})
    && forall i | 0 <= i < |acts| :: SubsEnabled(run[i], acts[i]) && run[i + 1] == SubsStep(run[i], acts[i])
  }

  lemma SubsStepKeepsInv(s: Subs, a: Action)
    requires SubsInv(s) && SubsEnabled(s, a)
    ensures SubsInv(SubsStep(s, a)) && DropFindsChannel(s, a)
  {
    var s' := SubsStep(s, a);
    forall c: Chan ensures SubsAt(s', c) {
      assert SubsAt(s, c);
    }
    if a.Drop? { assert SubsAt(s, a.c); }
  }

  /** Whatever the order of subscribing, unsubscribing and sending, a drop always finds its channel. */
  lemma {:induction false} DropNeverPanics(run: seq<Subs>, acts: seq<Action>, i: nat)
    requires IsSubsRun(run, acts) && i < |run|
    ensures SubsInv(run[i])
    ensures i < |acts| ==> DropFindsChannel(run[i], acts[i])
  {
    if i > 0 {
      DropNeverPanics(run, acts, i - 1);
      SubsStepKeepsInv(run[i - 1], acts[i - 1]);
      assert run[i - 1 + 1] == SubsStep(run[i - 1], acts[i - 1]);
    }
    if i < |acts| { SubsStepKeepsInv(run[i], acts[i]); }
  }

  /** How often a channel has been subscribed, and how often a subscription of it has been cancelled. */
  function Subscribed(acts: seq<Action>, i: nat, c: Chan): nat
    requires i <= |acts|
  {
    if i == 0 then 0 else Subscribed(acts, i - 1, c) + if acts[i - 1] == Subscribe(c) then 1 else 0
  }

  function Cancelled(acts: seq<Action>, i: nat, c: Chan): nat
    requires i <= |acts|
  {
    if i == 0 then 0 else Cancelled(acts, i - 1, c) + if acts[i - 1] == CheckInbox(c) then 1 else 0
  }

  /** What an action changes in the counts of one channel. */
  lemma CountsStep(s: Subs, a: Action, c: Chan)
    requires SubsEnabled(s, a) && DropFindsChannel(s, a)
    ensures var s' := SubsStep(s, a);
            var more, less := if a == Subscribe(c) then 1 else 0, if a == CheckInbox(c) then 1 else 0;
            s'.inbox[c] + s'.sendCases[c] + less + s.leaving[c] == s.inbox[c] + s.sendCases[c] + more + s'.leaving[c]
  {
    match a
    case Subscribe(d) =>
    case CheckInbox(d) => if d in s.inbox { assert (s.inbox - multiset{d})[c] == s.inbox[c] - if c == d then 1 else 0; }
    case Drop(d) =>
      assert (s.sendCases - multiset{d})[c] == s.sendCases[c] - if c == d then 1 else 0;
      assert (s.leaving - multiset{d})[c] == s.leaving[c] - if c == d then 1 else 0;
    case TakeInbox =>
  }

  /**
   In every interleaving the two lists hold what has been subscribed and not been cancelled, and beyond that only the
   subscriptions whose cancelling is still under way.
   */
  lemma {:induction false} ListsAreSubscriptions(run: seq<Subs>, acts: seq<Action>, i: nat, c: Chan)
    requires IsSubsRun(run, acts) && i < |run|
    ensures run[i].inbox[c] + run[i].sendCases[c] + Cancelled(acts, i, c) == Subscribed(acts, i, c) + run[i].leaving[c]
  {
    if i > 0 {
      var n := i - 1;
      ListsAreSubscriptions(run, acts, n, c);
      DropNeverPanics(run, acts, n);
      assert SubsEnabled(run[n], acts[n]) && run[n + 1] == SubsStep(run[n], acts[n]);
      CountsStep(run[n], acts[n], c);
    }
  }

  /** The channels dropped by the actions from the `i`-th up to the `j`-th. */
  function Dropped(acts: seq<Action>, i: nat, j: nat): multiset<Chan>
    requires i <= j <= |acts|
    decreases j
  {
    if i == j then multiset{}
    else Dropped(acts, i, j - 1) + if acts[j - 1].Drop? then multiset{acts[j - 1].c} else multiset{}
  }

  /** The requests to leave that these actions hand to Send: the channel was not in the inbox any more. */
  function Requested(run: seq<Subs>, acts: seq<Action>, i: nat, j: nat): multiset<Chan>
    requires i <= j <= |acts| && |run| == |acts| + 1
    decreases j
  {
    if i == j then multiset{}
    else Requested(run, acts, i, j - 1)
         + if acts[j - 1].CheckInbox? && acts[j - 1].c !in run[j - 1].inbox then multiset{acts[j - 1].c} else multiset{}
  }

  lemma {:induction false} SendAccount(run: seq<Subs>, acts: seq<Action>, i: nat, j: nat)
    requires IsSubsRun(run, acts) && i <= j <= |acts| && forall k | i <= k < j :: !acts[k].TakeInbox?
    ensures run[j].sendCases + Dropped(acts, i, j) == run[i].sendCases
    ensures run[j].leaving + Dropped(acts, i, j) == run[i].leaving + Requested(run, acts, i, j)
    decreases j
  {
    if i < j {
      SendAccount(run, acts, i, j - 1);
      DropNeverPanics(run, acts, j - 1);
      assert run[j - 1 + 1] == SubsStep(run[j - 1], acts[j - 1]);
      assert SubsEnabled(run[j - 1], acts[j - 1]);
      SendAccountStep(run[j - 1], acts[j - 1], Dropped(acts, i, j - 1), Requested(run, acts, i, j - 1),
                      run[i].sendCases, run[i].leaving);
    }
  }

  lemma SendAccountStep(s: Subs, a: Action, dropped: multiset<Chan>, requested: multiset<Chan>, cases: multiset<Chan>,
                        leaving: multiset<Chan>)
    requires SubsEnabled(s, a) && DropFindsChannel(s, a) && !a.TakeInbox?
    requires s.sendCases + dropped == cases && s.leaving + dropped == leaving + requested
    ensures var s', x := SubsStep(s, a), if a.Drop? then multiset{a.c} else multiset{};
            var y := if a.CheckInbox? && a.c !in s.inbox then multiset{a.c} else multiset{};
            s'.sendCases + (dropped + x) == cases && s'.leaving + (dropped + x) == leaving + (requested + y)
  {
    assert dropped + multiset{} == dropped && requested + multiset{} == requested;
    if a.Drop? {
      MoveOne(s.sendCases, dropped, a.c);
      MoveOne(s.leaving, dropped, a.c);
    } else if a.CheckInbox? {
      AddOne(s.leaving, dropped, leaving, requested, a.c);
    }
  }

  lemma AddOne(x: multiset<Chan>, dropped: multiset<Chan>, y: multiset<Chan>, z: multiset<Chan>, c: Chan)
    requires x + dropped == y + z
    ensures (x + multiset{c}) + dropped == y + (z + multiset{c})
  {
    forall k: Chan ensures ((x + multiset{c}) + dropped)[k] == (y + (z + multiset{c}))[k] {
      assert (x + dropped)[k] == (y + z)[k];
    }
  }

  lemma MoveOne(x: multiset<Chan>, dropped: multiset<Chan>, c: Chan)
    requires c in x
    ensures (x - multiset{c}) + (dropped + multiset{c}) == x + dropped
  {
  }

  /**
   While Send holds its lock, from taking the inbox on, all requests to leave that reach it are for subscriptions it
   has, however they interleave with it: this is what Feed.Send takes for granted, and what it drops is among them.
   */
  lemma RequestsAreSubscribed(run: seq<Subs>, acts: seq<Action>, i: nat, j: nat)
    requires IsSubsRun(run, acts) && i <= j <= |acts| && forall k | i <= k < j :: !acts[k].TakeInbox?
    ensures run[i].leaving + Requested(run, acts, i, j) <= run[i].sendCases
    ensures Dropped(acts, i, j) <= run[i].leaving + Requested(run, acts, i, j)
    ensures run[j].sendCases == run[i].sendCases - Dropped(acts, i, j)
  {
    SendAccount(run, acts, i, j);
    DropNeverPanics(run, acts, j);
    var dropped := Dropped(acts, i, j);
    forall c: Chan ensures (run[i].leaving + Requested(run, acts, i, j))[c] <= run[i].sendCases[c] {
      assert SubsAt(run[j], c);
      assert (run[j].leaving + dropped)[c] <= (run[j].sendCases + dropped)[c];
    }
  }

  // ---------- Sequences ----------

  function Without(s: seq<Chan>, i: nat): seq<Chan>
    requires i < |s|
  {
    s[..i] + s[i + 1..]
  }

  lemma WithoutMultiset(s: seq<Chan>, i: nat)
    requires i < |s|
    ensures multiset(Without(s, i)) == multiset(s) - multiset{s[i]}
  {
    assert s == s[..i] + [s[i]] + s[i + 1..];
  }

  // ---------- The feed ----------

  class Feed {
    var buf: array<Chan>    // the array behind sendCases and cases
    var sendLen: nat        // len(f.sendCases)
    var inbox: seq<Chan>

    /** f.sendCases; the slice `cases` of Send is a prefix of it. */
    ghost function Cases(): seq<Chan>
      reads this, buf
      requires sendLen <= buf.Length
    {
      buf[..sendLen]
    }

    ghost predicate Valid()
      reads this, buf
    {
      && sendLen <= buf.Length && CasesOk(Cases())
      && (forall i | 0 <= i < |inbox| :: inbox[i] != REMOVE_SUB)
    }

    ghost function Subscribed(): multiset<Chan>
      reads this, buf
      requires Valid()
    {
      multiset(Cases()[1..]) + multiset(inbox)
    }

    constructor ()
      ensures Valid() && Subscribed() == multiset{} && fresh(buf)
    {
      var a := new Chan[1][REMOVE_SUB];
      buf, sendLen, inbox := a, 1, [];
    }

    method Subscribe(c: Chan)
      requires Valid() && c != REMOVE_SUB
      modifies this`inbox
      ensures Valid() && Subscribed() == old(Subscribed()) + multiset{c}
    {
      inbox := inbox + [c];
      assert inbox == old(inbox) + [c];
    }

    /** caseList.find on sendCases. */
    method Find(c: Chan) returns (index: int)
      requires sendLen <= buf.Length
      ensures index == -1 <==> forall j | 0 <= j < sendLen :: buf[j] != c
      ensures index != -1 ==> 0 <= index < sendLen && buf[index] == c && forall j | 0 <= j < index :: buf[j] != c
    {
      var i := 0;
      while i < sendLen
        invariant i <= sendLen && forall j | 0 <= j < i :: buf[j] != c
      {
        if buf[i] == c { return i; }
        i := i + 1;
      }
      index := -1;
    }

    /** caseList.delete on sendCases: the rest of the array is shifted down, under the prefix too. */
    method Delete(index: nat)
      requires index < sendLen <= buf.Length
      modifies this`sendLen, buf
      ensures sendLen == old(sendLen) - 1
      ensures Cases() == Without(old(Cases()), index)
    {
      ghost var s, n := buf[..sendLen], sendLen - 1;
      var i := index;
      while i < sendLen - 1
        modifies buf
        invariant index <= i <= n
        invariant buf[..i] == Without(s, index)[..i]
        invariant buf[i..n + 1] == s[i..]
      {
        assert buf[i + 1] == buf[i..n + 1][1] == s[i + 1];
        ghost var before := buf[..i];
        buf[i] := buf[i + 1];
        assert buf[..i] == before && buf[i + 1..n + 1] == s[i + 1..];
        i := i + 1;
        assert buf[..i] == before + [s[i]];
      }
      sendLen := sendLen - 1;
    }

    /** caseList.deactivate on the prefix of length `len`. */
    method Deactivate(index: nat, len: nat)
      requires 1 <= index < len <= sendLen <= buf.Length
      modifies buf
      ensures Cases() == SwappedOut(old(Cases()), index, len)
    {
      buf[index], buf[len - 1] := buf[len - 1], buf[index];
    }

    /** The fast path of Send: try every case in the prefix once; `*` stands for the outcome of TrySend. */
    method TryAll(len: nat, delivered: seq<Chan>, ghost all: multiset<Chan>, ghost gone: Gone)
      returns (len': nat, delivered': seq<Chan>)
      requires sendLen <= buf.Length && Sending(Cases(), len, delivered, all, gone)
      modifies buf
      ensures Sending(Cases(), len', delivered', all, gone) && len' <= len
    {
      len', delivered' := len, delivered;
      var i := 1;
      while i < len'
        modifies buf
        invariant 1 <= i <= len' <= len
        invariant Sending(Cases(), len', delivered', all, gone)
        decreases len' - i
      {
        var sent: bool := *;
        if sent {
          delivered' := ServeOne(i, len', delivered', all, gone);
          len' := len' - 1;
        } else {
          i := i + 1;
        }
      }
    }

    /** One round of reflect.Select: some subscriber is ready, or a request to leave is. */
    method SelectOne(len: nat, delivered: seq<Chan>, removed: seq<Chan>, leaving: multiset<Chan>,
                     ghost all: multiset<Chan>, ghost gone: Gone)
      returns (len': nat, delivered': seq<Chan>, removed': seq<Chan>, ghost gone': Gone)
      requires sendLen <= buf.Length && Sending(Cases(), len, delivered, all, gone) && len > 1
      requires gone.removed == multiset(removed) <= leaving <= all
      modifies this`sendLen, buf
      ensures sendLen <= buf.Length && Sending(Cases(), len', delivered', all, gone')
      ensures gone'.removed == multiset(removed') <= leaving
      ensures len' + sendLen < len + old(sendLen)
    {
      len', delivered', removed', gone' := len, delivered, removed, gone;
      var asked := leaving - multiset(removed);
      var chosen: nat :| chosen < len && (chosen == 0 ==> asked != multiset{});
      if chosen == 0 {
        var c :| c in asked;
        DropAsked(multiset(removed), leaving, all, c);
        len', gone' := DropOne(c, len, delivered, all, gone);
        removed' := removed + [c];
      } else {
        delivered' := ServeOne(chosen, len, delivered, all, gone);
        len' := len - 1;
      }
    }

    /** The branch of Send for a subscriber that is ready. */
    method ServeOne(chosen: nat, len: nat, delivered: seq<Chan>, ghost all: multiset<Chan>, ghost gone: Gone)
      returns (delivered': seq<Chan>)
      requires sendLen <= buf.Length && Sending(Cases(), len, delivered, all, gone) && 1 <= chosen < len
      modifies buf
      ensures Sending(Cases(), len - 1, delivered', all, gone) && delivered' == delivered + [old(buf[chosen])]
    {
      ServeKeeps(Cases(), chosen, len, delivered, all, gone);
      delivered' := delivered + [buf[chosen]];
      Deactivate(chosen, len);
    }

    /** The branch of Send for a channel received from removeSub. */
    method DropOne(c: Chan, len: nat, delivered: seq<Chan>, ghost all: multiset<Chan>, ghost gone: Gone)
      returns (len': nat, ghost gone': Gone)
      requires sendLen <= buf.Length && Sending(Cases(), len, delivered, all, gone) && len > 1
               && gone.removed[c] < all[c]
      modifies this`sendLen, buf
      ensures sendLen == old(sendLen) - 1 && Sending(Cases(), len', delivered, all, gone') && len' <= len
      ensures gone'.removed == gone.removed + multiset{c}
    {
      StillThere(Cases(), len, delivered, all, gone, c);
      var index := Find(c);
      gone' := DropKeeps(Cases(), index, len, delivered, all, gone);
      Delete(index);
      len' := if index < len then len - 1 else len;
    }

    /**
     Send, after it has taken the send lock. `leaving` are the requests to leave that reach it before it ends, one for a
     subscription at most (see RequestsAreSubscribed). The caller learns how many subscribers got the value; `delivered`
     lists the channels the value was sent on and `removed` the channels dropped while sending, in order. The choices of
     TrySend and Select are arbitrary, and the loop ends whatever they are.
     */
    method Send(leaving: multiset<Chan>) returns (nsent: nat, delivered: seq<Chan>, removed: seq<Chan>)
      requires Valid() && leaving <= Subscribed()
      modifies this, buf
      ensures Valid() && inbox == []
      ensures nsent == |delivered|
      ensures Subscribed() == old(Subscribed()) - multiset(removed) && multiset(removed) <= leaving
      ensures Delivery(old(Subscribed()), multiset(delivered), multiset(removed))
    {
      TakeInbox();
      ghost var all, gone := Subscribed(), Gone(multiset{}, multiset{});
      delivered, removed := [], [];
      var len: nat := sendLen;
      StartSending(Cases(), all);
      while true
        modifies this`sendLen, buf
        invariant sendLen <= buf.Length && gone.removed == multiset(removed) <= leaving
        invariant Sending(Cases(), len, delivered, all, gone)
        decreases len + sendLen
      {
        len, delivered := TryAll(len, delivered, all, gone);
        if len == 1 { break; }
        len, delivered, removed, gone := SelectOne(len, delivered, removed, leaving, all, gone);
      }
      Delivered(Cases(), delivered, all, gone);
      nsent := |delivered|;
    }

    /** The start of Send: append the inbox to sendCases. */
    method TakeInbox()
      requires Valid()
      modifies this
      ensures Valid() && inbox == [] && Subscribed() == old(Subscribed()) && fresh(buf)
      ensures Cases() == old(Cases()) + old(inbox)
    {
      ghost var s := Cases();
      var joined := buf[..sendLen] + inbox;
      var a := new Chan[|joined|](i requires 0 <= i < |joined| => joined[i]);
      assert a[..|joined|] == joined;
      assert joined[1..] == s[1..] + inbox;
      buf, sendLen, inbox := a, |joined|, [];
      assert Cases() == joined && multiset(inbox) == multiset{};
    }
  }

  // ---------- The account of a send ----------

  /** The channels removed during a send, and those of them that had not been served. */
  datatype Gone = Gone(removed: multiset<Chan>, unserved: multiset<Chan>)

  function SwappedOut(cases: seq<Chan>, index: nat, len: nat): seq<Chan>
    requires index < len <= |cases|
  {
    cases[index := cases[len - 1]][len - 1 := cases[index]]
  }

  /**
   For channel `c`: every subscription is still to be served, served or removed; deliveries went to the served
   ones and to those of the removed ones that had been served.
   */
  ghost predicate Accounted(cases: seq<Chan>, len: nat, delivered: seq<Chan>, all: multiset<Chan>, gone: Gone, c: Chan)
    requires 1 <= len <= |cases|
  {
    var active, served := multiset(cases[1..len]), multiset(cases[len..]);
    && all[c] == active[c] + served[c] + gone.removed[c]
    && multiset(delivered)[c] + gone.unserved[c] == served[c] + gone.removed[c]
    && gone.unserved[c] <= gone.removed[c]
  }

  /** Slot 0 is the remove channel and no other slot is. */
  ghost predicate CasesOk(cases: seq<Chan>) {
    |cases| >= 1 && cases[0] == REMOVE_SUB && forall i | 1 <= i < |cases| :: cases[i] != REMOVE_SUB
  }

  ghost predicate Sending(cases: seq<Chan>, len: nat, delivered: seq<Chan>, all: multiset<Chan>, gone: Gone) {
    && CasesOk(cases) && 1 <= len <= |cases|
    && forall c: Chan {:trigger Accounted(cases, len, delivered, all, gone, c)} ::
         Accounted(cases, len, delivered, all, gone, c)
  }

  /** A channel with more subscriptions than removals is still among the cases. */
  lemma StillThere(cases: seq<Chan>, len: nat, delivered: seq<Chan>, all: multiset<Chan>, gone: Gone, c: Chan)
    requires Sending(cases, len, delivered, all, gone) && gone.removed[c] < all[c]
    ensures c != REMOVE_SUB && exists i :: 1 <= i < |cases| && cases[i] == c
  {
    assert Accounted(cases, len, delivered, all, gone, c);
    if c in multiset(cases[1..len]) {
      var i :| 0 <= i < |cases[1..len]| && cases[1..len][i] == c;
      assert cases[i + 1] == c;
    } else {
      assert c in multiset(cases[len..]);
      var i :| 0 <= i < |cases[len..]| && cases[len..][i] == c;
      assert cases[i + len] == c;
    }
  }

  lemma DropAsked(removed: multiset<Chan>, leaving: multiset<Chan>, all: multiset<Chan>, c: Chan)
    requires removed <= leaving <= all && c in leaving - removed
    ensures removed + multiset{c} <= leaving && removed[c] < all[c]
  {
    assert leaving[c] <= all[c];
  }

  /** So everyone who does not ask to leave gets the value. */
  lemma StayersAreServed(subscribed: multiset<Chan>, delivered: multiset<Chan>, removed: multiset<Chan>,
                         leaving: multiset<Chan>)
    requires Delivery(subscribed, delivered, removed) && removed <= leaving <= subscribed
    ensures subscribed - leaving <= delivered
    ensures leaving == multiset{} ==> delivered == subscribed
  {
    forall c: Chan ensures (subscribed - leaving)[c] <= delivered[c] {
      assert (subscribed - removed)[c] <= delivered[c] && removed[c] <= leaving[c];
    }
  }

  lemma StartSending(cases: seq<Chan>, all: multiset<Chan>)
    requires CasesOk(cases) && all == multiset(cases[1..])
    ensures Sending(cases, |cases|, [], all, Gone(multiset{}, multiset{}))
  {
    assert cases[1..|cases|] == cases[1..];
  }

  /** One active subscription `x` becomes a served one, whatever the order of the cases is now. */
  lemma ServeAccounted(cases: seq<Chan>, len: nat, delivered: seq<Chan>, all: multiset<Chan>, gone: Gone, x: Chan,
                       r: seq<Chan>, delivered': seq<Chan>)
    requires Sending(cases, len, delivered, all, gone) && CasesOk(r) && 1 < len <= |r| && x in multiset(cases[1..len])
    requires multiset(r[1..len - 1]) == multiset(cases[1..len]) - multiset{x}
    requires multiset(r[len - 1..]) == multiset(cases[len..]) + multiset{x}
    requires multiset(delivered') == multiset(delivered) + multiset{x}
    ensures Sending(r, len - 1, delivered', all, gone)
  {
    var len' := len - 1;
    forall c: Chan ensures Accounted(r, len', delivered', all, gone, c) {
      assert Accounted(cases, len, delivered, all, gone, c);
    }
  }

  lemma ServeKeeps(cases: seq<Chan>, index: nat, len: nat, delivered: seq<Chan>, all: multiset<Chan>, gone: Gone)
    requires Sending(cases, len, delivered, all, gone) && 1 <= index < len
    ensures Sending(SwappedOut(cases, index, len), len - 1, delivered + [cases[index]], all, gone)
  {
    SwappedOk(cases, index, len);
    SwapOut(cases, index, len);
    ServeAccounted(cases, len, delivered, all, gone, cases[index], SwappedOut(cases, index, len),
                   delivered + [cases[index]]);
  }

  lemma SwappedOk(cases: seq<Chan>, index: nat, len: nat)
    requires CasesOk(cases) && 1 <= index < len <= |cases|
    ensures CasesOk(SwappedOut(cases, index, len)) && |SwappedOut(cases, index, len)| == |cases|
  {
  }

  /** Dropping the first occurrence of a channel hits an active subscription if there is one. */
  lemma DropKeeps(cases: seq<Chan>, index: nat, len: nat, delivered: seq<Chan>, all: multiset<Chan>, gone: Gone)
    returns (gone': Gone)
    requires Sending(cases, len, delivered, all, gone) && 1 <= index < |cases|
    ensures gone'.removed == gone.removed + multiset{cases[index]}
    ensures Sending(Without(cases, index), if index < len then len - 1 else len, delivered, all, gone')
  {
    var x := multiset{cases[index]};
    gone' := Gone(gone.removed + x, if index < len then gone.unserved + x else gone.unserved);
    var r, len' := Without(cases, index), if index < len then len - 1 else len;
    if index < len { DropActive(cases, index, len); } else { DropServed(cases, index, len); }
    forall c: Chan
      ensures Accounted(r, len', delivered, all, gone', c)
    {
      assert Accounted(cases, len, delivered, all, gone, c);
    }
  }

  /**
   Who got the value: nobody more often than subscribed, and everybody at least as often as the subscriptions
   that were not removed.
   */
  ghost predicate Delivery(subscribed: multiset<Chan>, delivered: multiset<Chan>, removed: multiset<Chan>) {
    delivered <= subscribed && subscribed - removed <= delivered
  }

  lemma Delivered(cases: seq<Chan>, delivered: seq<Chan>, all: multiset<Chan>, gone: Gone)
    requires Sending(cases, 1, delivered, all, gone)
    ensures Delivery(all, multiset(delivered), gone.removed)
    ensures multiset(cases[1..]) == all - gone.removed && gone.removed <= all
  {
    forall c: Chan
      ensures all[c] == multiset(cases[1..])[c] + gone.removed[c]
      ensures multiset(cases[1..])[c] <= multiset(delivered)[c] <= all[c]
    {
      assert Accounted(cases, 1, delivered, all, gone, c);
    }
  }

  /** A channel that is subscribed once gets the value exactly once if it stays, and at most once if it leaves. */
  lemma ExactlyOnce(subscribed: multiset<Chan>, delivered: multiset<Chan>, removed: multiset<Chan>, c: Chan)
    requires Delivery(subscribed, delivered, removed) && subscribed[c] == 1
    ensures c !in removed ==> delivered[c] == 1
    ensures delivered[c] <= 1
  {
    assert (subscribed - removed)[c] <= delivered[c] <= subscribed[c];
  }

  lemma SwapOut(s: seq<Chan>, index: nat, len: nat)
    requires 1 <= index < len <= |s|
    ensures var r := SwappedOut(s, index, len);
            && multiset(r[1..len - 1]) == multiset(s[1..len]) - multiset{s[index]}
            && multiset(r[len - 1..]) == multiset(s[len..]) + multiset{s[index]}
            && s[index] in multiset(s[1..len])
  {
    SwappedFront(s, index, len);
    SwapLast(s[1..len], index - 1, s[index], s[len - 1]);
    SwappedBack(s, index, len);
    PrependBag(s[index], s[len..]);
  }

  lemma SwappedFront(s: seq<Chan>, index: nat, len: nat)
    requires 1 <= index < len <= |s|
    ensures SwappedOut(s, index, len)[1..len - 1] == s[1..len][index - 1 := s[len - 1]][..|s[1..len]| - 1]
    ensures s[1..len][index - 1] == s[index] && s[1..len][|s[1..len]| - 1] == s[len - 1]
  {
  }

  lemma SwappedBack(s: seq<Chan>, index: nat, len: nat)
    requires 1 <= index < len <= |s|
    ensures SwappedOut(s, index, len)[len - 1..] == [s[index]] + s[len..]
  {
  }

  lemma PrependBag(x: Chan, s: seq<Chan>)
    ensures multiset([x] + s) == multiset(s) + multiset{x}
  {
  }

  lemma SwapLast(a: seq<Chan>, i: nat, x: Chan, last: Chan)
    requires i < |a| && x == a[i] && last == a[|a| - 1]
    ensures multiset(a[i := last][..|a| - 1]) == multiset(a) - multiset{x} && x in multiset(a)
  {
    var n := |a| - 1;
    var front := a[..n];
    assert a == front + [last];
    if i < n {
      assert a[i := last][..n] == front[i := last];
      assert multiset(front[i := last]) == multiset(front) - multiset{front[i]} + multiset{last};
    } else {
      assert a[i := last] == a;
    }
  }

  lemma DropActive(s: seq<Chan>, index: nat, len: nat)
    requires 1 <= index < len <= |s|
    ensures multiset(Without(s, index)[1..len - 1]) == multiset(s[1..len]) - multiset{s[index]}
    ensures Without(s, index)[len - 1..] == s[len..]
    ensures s[index] in multiset(s[1..len])
  {
    assert Without(s, index)[1..len - 1] == Without(s[1..len], index - 1);
    assert s[1..len][index - 1] == s[index];
    WithoutMultiset(s[1..len], index - 1);
  }

  lemma DropServed(s: seq<Chan>, index: nat, len: nat)
    requires 1 <= len <= index < |s|
    ensures Without(s, index)[1..len] == s[1..len]
    ensures multiset(Without(s, index)[len..]) == multiset(s[len..]) - multiset{s[index]}
    ensures s[index] in multiset(s[len..])
  {
    WithoutSlices(s, index, len);
    WithoutMultiset(s[len..], index - len);
  }

  lemma WithoutSlices(s: seq<Chan>, index: nat, len: nat)
    requires 1 <= len <= index < |s|
    ensures Without(s, index)[1..len] == s[1..len]
    ensures Without(s, index)[len..] == Without(s[len..], index - len) && s[len..][index - len] == s[index]
  {
  }
}
