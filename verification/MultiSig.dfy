/** Multi-signature voting with an approval and a rejection threshold. */
module MultiSig {

  type Signer = nat

  const TWO_32: nat := 0x1_0000_0000

  /** `len() as u32` */
  function AsU32(n: nat): nat {
    n % TWO_32
  }

  datatype Ballot = Ballot(signers: seq<Signer>, threshold: nat, approvals: seq<Signer>, rejections: seq<Signer>)

  datatype Vote = Approve(who: Signer) | Reject(who: Signer)

  ghost predicate NoDuplicates(s: seq<Signer>) {
    forall i, j :: 0 <= i < j < |s| ==> s[i] != s[j]
  }

  /** What `new` is specified to be given. */
  ghost predicate ValidSetup(signers: seq<Signer>, threshold: nat) {
    0 < threshold <= AsU32(|signers|) && NoDuplicates(signers)
  }

  function Fresh(signers: seq<Signer>, threshold: nat): Ballot {
    Ballot(signers, threshold, [], [])
  }

  predicate MayVote(b: Ballot, who: Signer) {
    who !in b.approvals && who !in b.rejections && who in b.signers
  }

  function Cast(b: Ballot, v: Vote): Ballot {
    if !MayVote(b, v.who) then b
    else match v
      case Approve(who) => b.(approvals := b.approvals + [who])
      case Reject(who) => b.(rejections := b.rejections + [who])
  }

  function Run(b: Ballot, votes: seq<Vote>): Ballot
    decreases |votes|
  {
    if votes == [] then b else Run(Cast(b, votes[0]), votes[1..])
  }

  predicate ThresholdReached(b: Ballot) {
    AsU32(|b.approvals|) >= b.threshold
  }

  predicate RejectionThresholdReached(b: Ballot) {
    AsU32(|b.rejections|) >= AsU32(|b.signers|) - b.threshold + 1
  }

  predicate CanExecute(b: Ballot) {
    ThresholdReached(b) && !RejectionThresholdReached(b)
  }

  // ---- What every ballot keeps ----

  ghost predicate Sound(b: Ballot) {
    && ValidSetup(b.signers, b.threshold)
    && NoDuplicates(b.approvals) && NoDuplicates(b.rejections)
    && (forall a :: a in b.approvals ==> a in b.signers)
    && (forall r :: r in b.rejections ==> r in b.signers)
    && (forall a :: a in b.approvals ==> a !in b.rejections)
  }

  lemma CastKeeps(b: Ballot, v: Vote)
    requires Sound(b)
    ensures Sound(Cast(b, v))
    ensures Cast(b, v).signers == b.signers && Cast(b, v).threshold == b.threshold
    ensures b.approvals <= Cast(b, v).approvals && b.rejections <= Cast(b, v).rejections
  {
  }

  lemma {:induction false} RunKeeps(b: Ballot, votes: seq<Vote>)
    requires Sound(b)
    ensures Sound(Run(b, votes))
    ensures Run(b, votes).signers == b.signers && Run(b, votes).threshold == b.threshold
    ensures b.approvals <= Run(b, votes).approvals && b.rejections <= Run(b, votes).rejections
    decreases |votes|
  {
    if votes == [] {
    } else {
      CastKeeps(b, votes[0]);
      RunKeeps(Cast(b, votes[0]), votes[1..]);
    }
  }

  /** In every reachable state approvals and rejections are disjoint, duplicate-free subsets of the signers. */
  lemma ReachableIsSound(signers: seq<Signer>, threshold: nat, votes: seq<Vote>)
    requires ValidSetup(signers, threshold)
    ensures Sound(Run(Fresh(signers, threshold), votes))
  {
    RunKeeps(Fresh(signers, threshold), votes);
  }

  // ---- Counting ----

  ghost function AsSet(s: seq<Signer>): set<Signer> {
    set x | x in s
  }

  lemma {:induction false} DistinctCount(s: seq<Signer>)
    requires NoDuplicates(s)
    ensures |AsSet(s)| == |s|
  {
    if s == [] {
    } else {
      DistinctCount(s[1..]);
      assert AsSet(s) == {s[0]} + AsSet(s[1..]);
    }
  }

  lemma SubsetCount(a: set<Signer>, b: set<Signer>)
    requires a <= b
    ensures |a| <= |b|
  {
    assert b == a + (b - a);
  }

  /** No more votes than signers; as many exactly when every signer has voted. */
  lemma VotesFit(b: Ballot)
    requires Sound(b)
    ensures |b.approvals| + |b.rejections| <= |b.signers|
    ensures (forall s :: s in b.signers ==> s in b.approvals || s in b.rejections)
            ==> |b.approvals| + |b.rejections| == |b.signers|
  {
    DistinctCount(b.approvals);
    DistinctCount(b.rejections);
    DistinctCount(b.signers);
    var voted := AsSet(b.approvals) + AsSet(b.rejections);
    assert AsSet(b.approvals) !! AsSet(b.rejections);
    SubsetCount(voted, AsSet(b.signers));
    if forall s :: s in b.signers ==> s in b.approvals || s in b.rejections {
      assert voted == AsSet(b.signers);
    }
  }

  ghost predicate FewerThan32Bits(b: Ballot) {
    |b.signers| < TWO_32
  }

  lemma CountsAreExact(b: Ballot)
    requires Sound(b) && FewerThan32Bits(b)
    ensures ThresholdReached(b) <==> |b.approvals| >= b.threshold
    ensures RejectionThresholdReached(b) <==> |b.rejections| + b.threshold > |b.signers|
  {
    VotesFit(b);
  }

  // ---- Outcomes ----

  lemma NeverBothReached(b: Ballot)
    requires Sound(b) && FewerThan32Bits(b)
    ensures !(ThresholdReached(b) && RejectionThresholdReached(b))
    ensures CanExecute(b) <==> ThresholdReached(b)
  {
    CountsAreExact(b);
    VotesFit(b);
  }

  /** A reached threshold stays reached, whatever votes follow. */
  lemma OutcomesArePermanent(b: Ballot, votes: seq<Vote>)
    requires Sound(b) && FewerThan32Bits(b)
    ensures ThresholdReached(b) ==> ThresholdReached(Run(b, votes))
    ensures RejectionThresholdReached(b) ==> RejectionThresholdReached(Run(b, votes))
  {
    RunKeeps(b, votes);
    CountsAreExact(b);
    CountsAreExact(Run(b, votes));
  }

  /** Once every signer has voted exactly one threshold is reached. */
  lemma FullVoteDecides(b: Ballot)
    requires Sound(b) && FewerThan32Bits(b)
    requires forall s :: s in b.signers ==> s in b.approvals || s in b.rejections
    ensures ThresholdReached(b) != RejectionThresholdReached(b)
  {
    CountsAreExact(b);
    VotesFit(b);
  }

  function ApproveAll(who: seq<Signer>): (votes: seq<Vote>)
    ensures |votes| == |who| && forall i :: 0 <= i < |who| ==> votes[i] == Approve(who[i])
  {
    seq(|who|, i requires 0 <= i < |who| => Approve(who[i]))
  }

  /** After everyone on a list of signers approves, each of them has voted and no rejection was added. */
  lemma {:induction false} ApprovalsLand(b: Ballot, who: seq<Signer>)
    requires Sound(b) && forall s :: s in who ==> s in b.signers
    ensures var a := Run(b, ApproveAll(who));
            && a.rejections == b.rejections
            && forall s :: s in who ==> s in a.approvals || s in a.rejections
    decreases |who|
  {
    if who == [] {
    } else {
      var next := Cast(b, Approve(who[0]));
      CastKeeps(b, Approve(who[0]));
      assert ApproveAll(who)[1..] == ApproveAll(who[1..]);
      ApprovalsLand(next, who[1..]);
      RunKeeps(next, ApproveAll(who[1..]));
      var a := Run(b, ApproveAll(who));
      assert who[0] in b.signers;
      assert who[0] in next.approvals || who[0] in next.rejections;
      assert forall i :: 0 <= i < |next.approvals| ==> a.approvals[i] == next.approvals[i];
      forall s | s in who
        ensures s in a.approvals || s in a.rejections
      {
        if s != who[0] {
          assert s in who[1..];
        }
      }
    }
  }

  /** The rejection threshold holds exactly when no continuation can reach approval. */
  lemma RejectedIffHopeless(b: Ballot)
    requires Sound(b) && FewerThan32Bits(b)
    ensures RejectionThresholdReached(b) <==> forall votes :: !ThresholdReached(Run(b, votes))
  {
    if RejectionThresholdReached(b) {
      forall votes
        ensures !ThresholdReached(Run(b, votes))
      {
        RunKeeps(b, votes);
        OutcomesArePermanent(b, votes);
        NeverBothReached(Run(b, votes));
      }
    } else {
      var votes := ApproveAll(b.signers);
      var a := Run(b, votes);
      RunKeeps(b, votes);
      ApprovalsLand(b, b.signers);
      CountsAreExact(b);
      CountsAreExact(a);
      VotesFit(a);
      assert ThresholdReached(Run(b, votes));
    }
  }

  // ---- The 32-bit counts ----

  lemma {:induction false} FirstSignersVote(b: Ballot, n: nat, approve: bool)
    returns (votes: seq<Vote>)
    requires Sound(b) && |b.approvals| + |b.rejections| + n <= |b.signers|
    requires forall i :: |b.approvals| + |b.rejections| <= i < |b.signers| ==>
               b.signers[i] !in b.approvals && b.signers[i] !in b.rejections
    ensures var a := Run(b, votes);
            && Sound(a) && a.signers == b.signers && a.threshold == b.threshold
            && |a.approvals| == |b.approvals| + (if approve then n else 0)
            && |a.rejections| == |b.rejections| + (if approve then 0 else n)
            && forall i :: |a.approvals| + |a.rejections| <= i < |a.signers| ==>
                 a.signers[i] !in a.approvals && a.signers[i] !in a.rejections
    decreases n
  {
    if n == 0 {
      votes := [];
    } else {
      var who := b.signers[|b.approvals| + |b.rejections|];
      var v := if approve then Approve(who) else Reject(who);
      CastKeeps(b, v);
      var rest := FirstSignersVote(Cast(b, v), n - 1, approve);
      votes := [v] + rest;
    }
  }

  lemma {:induction false} RunJoin(b: Ballot, first: seq<Vote>, second: seq<Vote>)
    ensures Run(b, first + second) == Run(Run(b, first), second)
    decreases |first|
  {
    if first == [] {
      assert first + second == second;
    } else {
      assert (first + second)[1..] == first[1..] + second;
      RunJoin(Cast(b, first[0]), first[1..], second);
    }
  }

  ghost predicate CanBothBeReached(signers: seq<Signer>, threshold: nat) {
    exists votes :: ThresholdReached(Run(Fresh(signers, threshold), votes))
                    && RejectionThresholdReached(Run(Fresh(signers, threshold), votes))
  }

  /** The two thresholds exclude each other exactly when the signers can be counted in 32 bits. */
  lemma ExclusiveIffCountFits(signers: seq<Signer>, threshold: nat)
    requires ValidSetup(signers, threshold)
    ensures CanBothBeReached(signers, threshold) <==> |signers| >= TWO_32
  {
    var b := Fresh(signers, threshold);
    if |signers| >= TWO_32 {
      var r := AsU32(|signers|);
      var first := FirstSignersVote(b, threshold, true);
      var second := FirstSignersVote(Run(b, first), r - threshold + 1, false);
      RunJoin(b, first, second);
      assert ThresholdReached(Run(b, first + second)) && RejectionThresholdReached(Run(b, first + second));
    } else if CanBothBeReached(signers, threshold) {
      var votes :| ThresholdReached(Run(b, votes)) && RejectionThresholdReached(Run(b, votes));
      RunKeeps(b, votes);
      NeverBothReached(Run(b, votes));
    }
  }

  // ---- The ballot as an object ----

  class MultiSigThreshold {
    var signers: seq<Signer>
    var threshold: nat
    var approvals: seq<Signer>
    var rejections: seq<Signer>

    ghost function State(): Ballot
      reads this
    {
      Ballot(signers, threshold, approvals, rejections)
    }

    constructor (signers: seq<Signer>, threshold: nat)
      requires ValidSetup(signers, threshold)
      ensures State() == Fresh(signers, threshold) && Sound(State())
    {
      this.signers, this.threshold := signers, threshold;
      approvals, rejections := [], [];
    }

    method AddApproval(approver: Signer) returns (ok: bool)
      requires Sound(State())
      modifies this
      ensures State() == Cast(old(State()), Approve(approver)) && Sound(State())
      ensures ok <==> MayVote(old(State()), approver)
    {
      if approver in approvals || approver in rejections {
        return false;
      }
      if approver !in signers {
        return false;
      }
      approvals := approvals + [approver];
      ok := true;
    }

    method AddRejection(rejecter: Signer) returns (ok: bool)
      requires Sound(State())
      modifies this
      ensures State() == Cast(old(State()), Reject(rejecter)) && Sound(State())
      ensures ok <==> MayVote(old(State()), rejecter)
    {
      if rejecter in rejections || rejecter in approvals {
        return false;
      }
      if rejecter !in signers {
        return false;
      }
      rejections := rejections + [rejecter];
      ok := true;
    }
  }
}
