/**
 Masternode rewards (contracts/utils.go): counting signatures at a checkpoint, splitting the chain reward among
 signers, and splitting a signer's reward between owner, voters and foundation.
 */
module Rewards {
  import opened Basics
  import opened Sums

  const REWARD_MASTER_PERCENT := 40
  const REWARD_VOTER_PERCENT := 50
  const REWARD_FOUNDATION_PERCENT := 10
  const MERGE_SIGN_RANGE := 15
  const TIP_2019_BLOCK := 1_050_000

  // ---------- Counting signatures ----------

  /** After TIP2019 only every 15th block is counted. */
  predicate Counted(number: nat) { number % MERGE_SIGN_RANGE == 0 || number < TIP_2019_BLOCK }

  /** The address is a masternode and sent a sign transaction for this block, and the block is counted. */
  predicate Signs(masternodes: seq<Address>, senders: map<nat, seq<Address>>, number: nat, a: Address) {
    Counted(number) && number in senders && a in masternodes && a in senders[number]
  }

  /** How many of the `n` blocks from `start` on the address signed. */
  function Signed(masternodes: seq<Address>, senders: map<nat, seq<Address>>, start: nat, n: nat, a: Address): nat {
    if n == 0 then 0
    else Signed(masternodes, senders, start, n - 1, a) + if Signs(masternodes, senders, start + n - 1, a) then 1 else 0
  }

  /** The blocks of the range that count and that the masternode has sent a sign transaction for. */
  ghost function SignedBlocks(masternodes: seq<Address>, senders: map<nat, seq<Address>>, start: nat, n: nat,
                              a: Address)
    : set<nat>
  {
    set i: nat | start <= i < start + n && (i % 15 == 0 || i < 1_050_000) && i in senders && a in masternodes
                 && a in senders[i]
  }

  lemma SignedBlocksNext(masternodes: seq<Address>, senders: map<nat, seq<Address>>, start: nat, n: nat, a: Address)
    requires n > 0
    ensures SignedBlocks(masternodes, senders, start, n, a) == SignedBlocks(masternodes, senders, start, n - 1, a)
              + if Signs(masternodes, senders, start + n - 1, a) then {start + n - 1} else {}
  {
  }

  lemma {:induction false} SignedIsCount(masternodes: seq<Address>, senders: map<nat, seq<Address>>, start: nat, n: nat,
                                         a: Address)
    ensures Signed(masternodes, senders, start, n, a) == |SignedBlocks(masternodes, senders, start, n, a)|
  {
    if n == 0 {
      assert SignedBlocks(masternodes, senders, start, n, a) == {};
    } else {
      SignedIsCount(masternodes, senders, start, n - 1, a);
      SignedBlocksNext(masternodes, senders, start, n, a);
    }
  }

  /** The signers of one block: each masternode among the senders, once. */
  method BlockSigners(masternodes: seq<Address>, addrs: seq<Address>) returns (signers: set<Address>)
    ensures forall a :: a in signers <==> a in masternodes && a in addrs
  {
    signers := {};
    for i := 0 to |masternodes|
      invariant forall a :: a in signers <==> a in masternodes[..i] && a in addrs
    {
      if masternodes[i] in addrs { signers := signers + {masternodes[i]}; }
      assert masternodes[..i + 1] == masternodes[..i] + [masternodes[i]];
    }
    assert masternodes[..|masternodes|] == masternodes;
  }

  /** One sign each for the signers of a block, in any order. */
  method AddSigns(signs: Amounts, total: nat, signers: set<Address>) returns (signs': Amounts, total': nat)
    requires total == Sum(signs)
    ensures total' == Sum(signs') && signs'.Keys == signs.Keys + signers
    ensures forall a :: Value(signs', a) == Value(signs, a) + if a in signers then 1 else 0
  {
    signs', total' := signs, total;
    var rest := signers;
    while rest != {}
      invariant rest <= signers && total' == Sum(signs') && signs'.Keys == signs.Keys + (signers - rest)
      invariant forall a :: Value(signs', a) == Value(signs, a) + if a in signers - rest then 1 else 0
    {
      var a :| a in rest;
      SumPut(signs', a, Value(signs', a) + 1);
      signs', total' := signs'[a := Value(signs', a) + 1], total' + 1;
      rest := rest - {a};
    }
  }

  /** The counting loop of GetRewardForCheckpoint: every masternode gets its own count, and the total is their sum. */
  method CountSigners(masternodes: seq<Address>, senders: map<nat, seq<Address>>, start: nat, n: nat)
    returns (signs: Amounts, totalSigner: nat)
    ensures totalSigner == Sum(signs)
    ensures forall a :: Value(signs, a) == Signed(masternodes, senders, start, n, a)
    ensures forall a | a in signs :: signs[a] > 0
  {
    signs, totalSigner := map[], 0;
    for i := 0 to n
      invariant totalSigner == Sum(signs)
      invariant forall a :: Value(signs, a) == Signed(masternodes, senders, start, i, a)
      invariant forall a | a in signs :: signs[a] > 0
    {
      ghost var before := signs;
      if Counted(start + i) && start + i in senders && |senders[start + i]| > 0 {
        var signers := BlockSigners(masternodes, senders[start + i]);
        signs, totalSigner := AddSigns(signs, totalSigner, signers);
      }
      forall a ensures Value(signs, a) == Signed(masternodes, senders, start, i + 1, a) {
        assert Value(before, a) == Signed(masternodes, senders, start, i, a);
      }
      forall a | a in signs ensures signs[a] > 0 {
        assert Value(signs, a) == signs[a] && (a in before ==> before[a] > 0 && Value(before, a) == before[a]);
      }
    }
  }

  // ---------- Rewards of the signers ----------

  function Scaled(m: Amounts, k: nat): Amounts { map a | a in m :: k * m[a] }

  lemma Distribute(k: nat, x: nat, y: nat, kx: nat, ky: nat)
    requires kx == k * x && ky == k * y
    ensures kx + ky == k * (x + y)
  {
  }

  lemma ScaledWithout(m: Amounts, k: nat, a: Address)
    requires a in m
    ensures Scaled(m, k) - {a} == Scaled(m - {a}, k) && a in Scaled(m, k) && Scaled(m, k)[a] == k * m[a]
  {
  }

  lemma {:induction false} SumScaled(m: Amounts, k: nat)
    ensures Sum(Scaled(m, k)) == k * Sum(m)
    decreases |m|
  {
    if m.Keys == {} {
      SumNothing(m);
      SumNothing(Scaled(m, k));
    } else {
      var a :| a in m.Keys;
      Smaller(m, a);
      SumScaled(m - {a}, k);
      ScaledWithout(m, k, a);
      SumTake(m, a);
      SumTake(Scaled(m, k), a);
      Distribute(k, m[a], Sum(m - {a}), Scaled(m, k)[a], Sum(Scaled(m - {a}, k)));
    }
  }

  /** A whole quotient falls short by less than the divisor. */
  lemma QuotientFits(x: nat, d: nat)
    requires d > 0
    ensures x - d < x / d * d <= x
  {
    assert x == x / d * d + x % d;
  }

  /** The reward of each signer is its signs times the whole part of one sign's reward. */
  method CalculateRewardForSigner(chainReward: nat, signs: Amounts, totalSigner: nat) returns (rewards: Amounts)
    ensures totalSigner == 0 ==> rewards == map[]
    ensures totalSigner > 0 ==> rewards == Scaled(signs, chainReward / totalSigner)
  {
    rewards := map[];
    if totalSigner > 0 {
      var rest := signs;
      while rest.Keys != {}
        invariant rest.Keys <= signs.Keys && rewards.Keys == signs.Keys - rest.Keys
        invariant forall a | a in rewards :: rewards[a] == chainReward / totalSigner * signs[a]
        decreases rest.Keys
      {
        var a :| a in rest.Keys;
        rewards := rewards[a := chainReward / totalSigner * signs[a]];
        rest := rest - {a};
      }
    }
  }

  /**
   If the total is the sum of the signs, all rewards together fall short of the chain reward by less than the total.
   */
  lemma SignerRewardsFit(chainReward: nat, signs: Amounts, totalSigner: nat)
    requires totalSigner == Sum(signs) > 0
    ensures chainReward - totalSigner < Sum(Scaled(signs, chainReward / totalSigner)) <= chainReward
  {
    SumScaled(signs, chainReward / totalSigner);
    QuotientFits(chainReward, totalSigner);
  }

  // ---------- The split of one signer's reward ----------

  function Percent(x: nat, p: nat): nat { x * p / 100 }

  /** A voter's share of the voters' reward. */
  function Share(reward: nat, cap: nat, totalCap: nat): nat
    requires totalCap > 0
  {
    reward * cap / totalCap
  }

  function Shares(caps: Amounts, reward: nat, totalCap: nat): Amounts
    requires totalCap > 0
  {
    map a | a in caps :: Share(reward, caps[a], totalCap)
  }

  lemma SharesWithout(caps: Amounts, reward: nat, totalCap: nat, a: Address)
    requires totalCap > 0 && a in caps
    ensures Shares(caps, reward, totalCap) - {a} == Shares(caps - {a}, reward, totalCap)
    ensures a in Shares(caps, reward, totalCap) && Shares(caps, reward, totalCap)[a] == Share(reward, caps[a], totalCap)
  {
  }

  /** `n` voters with `caps` in all get `shares` in all: each loses less than one unit to rounding. */
  ghost predicate Rounded(reward: nat, caps: nat, totalCap: nat, shares: nat, n: nat) {
    && shares * totalCap <= reward * caps <= (shares + n) * totalCap
    && (n > 0 ==> reward * caps < (shares + n) * totalCap)
  }

  lemma OneMoreShare(reward: nat, cap: nat, caps: nat, totalCap: nat, shares: nat, n: nat)
    requires totalCap > 0 && Rounded(reward, caps, totalCap, shares, n)
    ensures Rounded(reward, cap + caps, totalCap, Share(reward, cap, totalCap) + shares, n + 1)
  {
    var share := Share(reward, cap, totalCap);
    QuotientFits(reward * cap, totalCap);
    assert reward * (cap + caps) == reward * cap + reward * caps;
    assert (share + shares) * totalCap == share * totalCap + shares * totalCap;
    assert (share + shares + (n + 1)) * totalCap == share * totalCap + totalCap + (shares + n) * totalCap;
  }

  lemma {:induction false} SharesFit(caps: Amounts, reward: nat, totalCap: nat)
    requires totalCap > 0
    ensures Rounded(reward, Sum(caps), totalCap, Sum(Shares(caps, reward, totalCap)), |caps|)
    decreases |caps|
  {
    if caps.Keys == {} {
      assert Shares(caps, reward, totalCap).Keys == {};
      assert Rounded(reward, 0, totalCap, 0, 0);
    } else {
      var a :| a in caps.Keys;
      Smaller(caps, a);
      SharesFit(caps - {a}, reward, totalCap);
      SharesWithout(caps, reward, totalCap, a);
      SumTake(caps, a);
      SumTake(Shares(caps, reward, totalCap), a);
      OneMoreShare(reward, caps[a], Sum(caps - {a}), totalCap, Sum(Shares(caps - {a}, reward, totalCap)), |caps| - 1);
    }
  }

  lemma Cancel(x: nat, y: nat, d: nat)
    requires d > 0
    ensures x * d <= y * d ==> x <= y
    ensures x * d < y * d ==> x < y
  {
    if x > y { assert x * d >= (y + 1) * d; }
    if x >= y { assert x * d >= y * d; }
  }

  lemma RoundedFits(reward: nat, caps: nat, totalCap: nat, shares: nat, n: nat)
    requires totalCap > 0 && Rounded(reward, caps, totalCap, shares, n) && caps <= totalCap
    ensures shares <= reward
    ensures caps == totalCap && n > 0 ==> reward < shares + n
  {
    assert reward * caps <= reward * totalCap;
    Cancel(shares, reward, totalCap);
    Cancel(reward, shares + n, totalCap);
  }

  /**
   Together the voters get at most their reward, and less by fewer
   units than there are voters if all caps are counted once.
   */
  lemma VotersFit(caps: Amounts, reward: nat, totalCap: nat)
    requires totalCap > 0 && Sum(caps) <= totalCap
    ensures Sum(Shares(caps, reward, totalCap)) <= reward
    ensures Sum(caps) == totalCap ==> reward < Sum(Shares(caps, reward, totalCap)) + |caps|
  {
    SharesFit(caps, reward, totalCap);
    RoundedFits(reward, Sum(caps), totalCap, Sum(Shares(caps, reward, totalCap)), |caps|);
    if Sum(caps) == totalCap { assert caps.Keys != {}; }
  }

  /** Up to two units are lost when the reward is cut into 40, 50 and 10 per cent. */
  lemma PercentsFit(x: nat)
    ensures var parts := Percent(x, REWARD_MASTER_PERCENT) + Percent(x, REWARD_VOTER_PERCENT)
            + Percent(x, REWARD_FOUNDATION_PERCENT);
            x - 3 < parts <= x
  {
  }

  /** The caps of all entries of the voter list, repeated ones included. */
  function TotalOf(voters: seq<Address>, capOf: Address -> nat): nat {
    if voters == [] then 0 else TotalOf(voters[..|voters| - 1], capOf) + capOf(voters[|voters| - 1])
  }

  /** The loop that collects the voters' caps. Before TIP2019 a repeated voter adds to the total each time. */
  method VoterCaps(voters: seq<Address>, capOf: Address -> nat, blockNumber: nat) returns (caps: Amounts, totalCap: nat)
    ensures (forall a :: a in caps <==> a in voters) && forall a | a in caps :: caps[a] == capOf(a)
    ensures Sum(caps) <= totalCap
    ensures totalCap == if blockNumber >= TIP_2019_BLOCK then Sum(caps) else TotalOf(voters, capOf)
    ensures Distinct(voters) ==> totalCap == Sum(caps)
  {
    caps, totalCap := map[], 0;
    for i := 0 to |voters|
      invariant (forall a :: a in caps <==> a in voters[..i]) && forall a | a in caps :: caps[a] == capOf(a)
      invariant Sum(caps) <= totalCap
      invariant totalCap == if blockNumber >= TIP_2019_BLOCK then Sum(caps) else TotalOf(voters[..i], capOf)
      invariant Distinct(voters) ==> totalCap == Sum(caps)
    {
      var a := voters[i];
      assert voters[..i + 1] == voters[..i] + [a] && voters[..i + 1][..i] == voters[..i];
      if !(a in caps && TIP_2019_BLOCK <= blockNumber) {
        SumPut(caps, a, capOf(a));
        totalCap := totalCap + capOf(a);
        caps := caps[a := capOf(a)];
      }
    }
    assert voters[..|voters|] == voters;
  }

  /** One voter's payment. */
  method PayOne(balances: Amounts, ghost left: Amounts, a: Address, cap: nat, share: nat) returns (balances': Amounts)
    requires a in left && left[a] == share && (cap == 0 ==> share == 0)
    ensures Sum(balances') + Sum(left - {a}) == Sum(balances) + Sum(left)
    ensures forall b :: Value(balances', b) + Value(left - {a}, b) == Value(balances, b) + Value(left, b)
    ensures forall b | b in balances' :: b in balances || b == a
  {
    SumTake(left, a);
    balances' := balances;
    if cap > 0 {
      SumPut(balances, a, Value(balances, a) + share);
      balances' := balances[a := Value(balances, a) + share];
    }
  }

  /** The loop that pays the voters, in any order; `shares` is what each is due. */
  method PayVoters(balances: Amounts, caps: Amounts, reward: nat, totalCap: nat, ghost shares: Amounts)
    returns (balances': Amounts)
    requires totalCap > 0 && shares == Shares(caps, reward, totalCap)
    ensures Sum(balances') == Sum(balances) + Sum(shares)
    ensures forall a :: Value(balances', a) == Value(balances, a) + Value(shares, a)
    ensures forall a | a in balances' :: a in balances || a in caps
  {
    balances' := balances;
    var rest := caps.Keys;
    ghost var left := shares;
    while rest != {}
      invariant rest <= caps.Keys && left.Keys == rest
      invariant forall a | a in rest :: left[a] == Share(reward, caps[a], totalCap)
      invariant Sum(balances') + Sum(left) == Sum(balances) + Sum(shares)
      invariant forall a :: Value(balances', a) + Value(left, a) == Value(balances, a) + Value(shares, a)
      invariant forall a | a in balances' :: a in balances || a in caps
    {
      var a :| a in rest;
      NoCapNoShare(reward, totalCap);
      balances' := PayOne(balances', left, a, caps[a], Share(reward, caps[a], totalCap));
      rest, left := rest - {a}, left - {a};
    }
    SumNothing(left);
  }

  lemma NoCapNoShare(reward: nat, totalCap: nat)
    requires totalCap > 0
    ensures Share(reward, 0, totalCap) == 0
  {
  }

  ghost function CapsOf(voters: seq<Address>, capOf: Address -> nat): Amounts { map a | a in voters :: capOf(a) }

  ghost function TotalCap(voters: seq<Address>, capOf: Address -> nat, blockNumber: nat): nat {
    if blockNumber >= TIP_2019_BLOCK then Sum(CapsOf(voters, capOf)) else TotalOf(voters, capOf)
  }

  /** What the voter list brings an address. */
  ghost function VoterShare(voters: seq<Address>, capOf: Address -> nat, reward: nat, blockNumber: nat, a: Address): nat
  {
    if a in voters && TotalCap(voters, capOf, blockNumber) > 0
      then Share(reward, capOf(a), TotalCap(voters, capOf, blockNumber)) else 0
  }

  /**
   The part of the split before the foundation's: the owner's 40 per cent and the voters' shares of 50 per cent. `paid`
   is what the voters get in all.
   */
  method OwnerAndVoters(owner: Address, voters: seq<Address>, capOf: Address -> nat, totalReward: nat, blockNumber: nat)
    returns (balances: Amounts, ghost paid: nat)
    ensures Sum(balances) == Percent(totalReward, REWARD_MASTER_PERCENT) + paid
            && paid <= Percent(totalReward, REWARD_VOTER_PERCENT)
    ensures forall a :: Value(balances, a) == (if a == owner then Percent(totalReward, REWARD_MASTER_PERCENT) else 0)
                                              + VoterShare(voters, capOf, Percent(totalReward, REWARD_VOTER_PERCENT),
                                                           blockNumber, a)
    ensures forall a | a in balances :: a == owner || a in voters
    ensures TotalCap(voters, capOf, blockNumber) > 0 && (blockNumber >= TIP_2019_BLOCK || Distinct(voters))
            ==> Percent(totalReward, REWARD_VOTER_PERCENT) < paid + |CapsOf(voters, capOf)|
  {
    var rewardMaster := Percent(totalReward, REWARD_MASTER_PERCENT);
    balances, paid := map[owner := rewardMaster], 0;
    SumPut(map[], owner, rewardMaster);
    SumNothing(map[]);
    var totalVoterReward := Percent(totalReward, REWARD_VOTER_PERCENT);
    var caps, totalCap := VoterCaps(voters, capOf, blockNumber);
    assert caps == CapsOf(voters, capOf);
    if totalCap > 0 {
      ghost var shares := Shares(caps, totalVoterReward, totalCap);
      balances := PayVoters(balances, caps, totalVoterReward, totalCap, shares);
      paid := Sum(shares);
      VotersFit(caps, totalVoterReward, totalCap);
    }
  }

  /**
   GetRewardBalancesRate never pays out more than the reward, even with repeated voters or coinciding addresses. If the
   foundation is neither owner nor voter, each voter is counted once and some cap is positive, it loses less than three
   units plus one for each voter.
   */
  method GetRewardBalancesRate(owner: Address, foundation: Address, voters: seq<Address>, capOf: Address -> nat,
                               totalReward: nat, blockNumber: nat) returns (balances: Amounts)
    ensures Sum(balances) <= totalReward
    ensures Value(balances, foundation) == Percent(totalReward, REWARD_FOUNDATION_PERCENT)
    ensures forall a | a != foundation ::
              Value(balances, a) == (if a == owner then Percent(totalReward, REWARD_MASTER_PERCENT) else 0)
                                    + VoterShare(voters, capOf, Percent(totalReward, REWARD_VOTER_PERCENT), blockNumber,
                                                 a)
    ensures foundation != owner && foundation !in voters && TotalCap(voters, capOf, blockNumber) > 0
            && (blockNumber >= TIP_2019_BLOCK || Distinct(voters))
            ==> totalReward < Sum(balances) + 3 + |CapsOf(voters, capOf)|
  {
    ghost var paid;
    balances, paid := OwnerAndVoters(owner, voters, capOf, totalReward, blockNumber);
    var foundationReward := Percent(totalReward, REWARD_FOUNDATION_PERCENT);
    SumPut(balances, foundation, foundationReward);
    PercentsFit(totalReward);
    balances := balances[foundation := foundationReward];
  }
}
