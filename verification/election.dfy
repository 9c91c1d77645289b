/**
 * The election of the e-voting service (evoting/lib/election.go): its
 * stage, the ballot box and the mixes and partial decryptions, all read
 * off the election's skipchain.
 *
 * The skipchain is the sequence of its blocks from the genesis block on:
 * following the first forward link is moving to the next element, and
 * following the first back link is moving to the previous one. Each block
 * carries its already-decoded transaction, None where the data does not
 * decode as one.
 */
module Election {
  import opened Wrappers
  import opened Bytes

  /** The stage of an election; 1, 2 and 3 in the source. */
  datatype Stage = Running | Shuffled | Decrypted

  datatype Ballot = Ballot(user: int, alpha: seq<byte>, beta: seq<byte>)
  datatype Mix = Mix(ballots: seq<Ballot>, proof: seq<byte>, nodeID: seq<byte>)
  datatype Partial = Partial(points: seq<seq<byte>>, nodeID: seq<byte>)

  /** The fields of an election this model reads or writes. */
  datatype Election = Election(creator: int, users: seq<int>, rosterSize: nat, stage: Stage, voted: seq<byte>)

  datatype Transaction = Transaction(
    election: Option<Election>,
    ballot: Option<Ballot>,
    mix: Option<Mix>,
    partial: Option<Partial>,
    user: int)

  datatype Block = Block(hash: seq<byte>, tx: Option<Transaction>)

  // ---------------------------------------------------------------------
  // Sequence helpers
  // ---------------------------------------------------------------------

  function Reverse<T>(s: seq<T>): (r: seq<T>)
    ensures |r| == |s|
    ensures forall k :: 0 <= k < |s| ==> r[k] == s[|s| - 1 - k]
    decreases |s|
  {
    if |s| == 0 then [] else Reverse(s[1..]) + [s[0]]
  }

  lemma ReverseAppend<T>(a: seq<T>, b: seq<T>)
    ensures Reverse(a + b) == Reverse(b) + Reverse(a)
  {
    assert |Reverse(a + b)| == |Reverse(b) + Reverse(a)|;
    forall k | 0 <= k < |a| + |b|
      ensures Reverse(a + b)[k] == (Reverse(b) + Reverse(a))[k]
    {
      if k < |b| {
        assert Reverse(a + b)[k] == (a + b)[|a| + |b| - 1 - k];
      }
    }
  }

  /**
   * The swap loop of `Box` (evoting/lib/election.go:182-184 and 197-199):
   * two indices walk from both ends towards each other.
   */
  method ReverseFromEnds<T>(s: seq<T>) returns (r: seq<T>)
    ensures r == Reverse(s)
  {
    r := s;
    var i, j := 0, |s| - 1;
    while i < j
      invariant 0 <= i <= |s| && j == |s| - 1 - i && |r| == |s|
      invariant forall k :: 0 <= k < |s| && (k < i || k > j) ==> r[k] == s[|s| - 1 - k]
      invariant forall k :: i <= k <= j ==> r[k] == s[k]
    {
      r := r[i := r[j]][j := r[i]];
      i, j := i + 1, j - 1;
    }
  }

  /**
   * The swap loop of `Mixes` and `Partials` (evoting/lib/election.go:242-246
   * and 287-290): one index walks down from the middle and is swapped with
   * its opposite.
   */
  method ReverseFromMiddle<T>(s: seq<T>) returns (r: seq<T>)
    ensures r == Reverse(s)
  {
    r := s;
    var i := |s| / 2 - 1;
    while i >= 0
      invariant -1 <= i <= |s| / 2 - 1 && |r| == |s|
      invariant forall k :: i < k < |s| - 1 - i ==> r[k] == s[|s| - 1 - k]
      invariant forall k :: 0 <= k < |s| && (k <= i || k >= |s| - 1 - i) ==> r[k] == s[k]
    {
      var opp := |s| - 1 - i;
      r := r[i := r[opp]][opp := r[i]];
      i := i - 1;
    }
  }

  // ---------------------------------------------------------------------
  // Box
  // ---------------------------------------------------------------------

  /** The users who cast one of the ballots. */
  function Users(bs: seq<Ballot>): (u: set<int>)
    ensures forall i :: 0 <= i < |bs| ==> bs[i].user in u
    decreases |bs|
  {
    if |bs| == 0 then {} else {bs[0].user} + Users(bs[1..])
  }

  /** Every user in the set cast one of the ballots. */
  lemma {:induction false} UsersWitness(bs: seq<Ballot>, x: int)
    requires x in Users(bs)
    ensures exists i :: 0 <= i < |bs| && bs[i].user == x
    decreases |bs|
  {
    if bs[0].user != x {
      UsersWitness(bs[1..], x);
      var j :| 0 <= j < |bs[1..]| && bs[1..][j].user == x;
      assert bs[j + 1] == bs[1..][j];
    }
  }

  /** The ballots of the chain, in chain order. */
  function BallotsOf(chain: seq<Block>): (bs: seq<Ballot>)
    decreases |chain|
  {
    if |chain| == 0 then []
    else
      var last := chain[|chain| - 1];
      BallotsOf(chain[..|chain| - 1])
      + (if last.tx.Some? && last.tx.value.ballot.Some? then [last.tx.value.ballot.value] else [])
  }

  /** Each user's last ballot, in chain order: the reference definition of the box. */
  function KeepLast(bs: seq<Ballot>): (r: seq<Ballot>)
    decreases |bs|
  {
    if |bs| == 0 then []
    else (if bs[0].user in Users(bs[1..]) then [] else [bs[0]]) + KeepLast(bs[1..])
  }

  /** The first ballot of each user, in order: what the loop over the reversed list keeps. */
  function KeepFirst(rs: seq<Ballot>): (r: seq<Ballot>)
    decreases |rs|
  {
    if |rs| == 0 then []
    else
      var last := rs[|rs| - 1];
      KeepFirst(rs[..|rs| - 1]) + (if last.user in Users(rs[..|rs| - 1]) then [] else [last])
  }

  /** The position of a user's last ballot. */
  function LastPos(bs: seq<Ballot>, u: int): (k: nat)
    requires u in Users(bs)
    ensures k < |bs| && bs[k].user == u
    ensures forall j :: k < j < |bs| ==> bs[j].user != u
    decreases |bs|
  {
    if bs[0].user == u && u !in Users(bs[1..]) then 0 else 1 + LastPos(bs[1..], u)
  }

  lemma LastPosCons(bs: seq<Ballot>, u: int)
    requires |bs| > 0 && u in Users(bs[1..])
    ensures u in Users(bs) && LastPos(bs, u) == 1 + LastPos(bs[1..], u)
  {
    assert Users(bs) == {bs[0].user} + Users(bs[1..]);
  }

  lemma LastPosHead(bs: seq<Ballot>)
    requires |bs| > 0 && bs[0].user !in Users(bs[1..])
    ensures bs[0].user in Users(bs) && LastPos(bs, bs[0].user) == 0
  {
  }

  /** Each ballot in the box is its user's last ballot. */
  lemma {:induction false} KeepLastIsLast(bs: seq<Ballot>)
    ensures forall i :: 0 <= i < |KeepLast(bs)| ==>
      KeepLast(bs)[i].user in Users(bs) && KeepLast(bs)[i] == bs[LastPos(bs, KeepLast(bs)[i].user)]
    decreases |bs|
  {
    if |bs| > 0 {
      var xs := bs[1..];
      KeepLastIsLast(xs);
      var h := if bs[0].user in Users(xs) then [] else [bs[0]];
      var r := KeepLast(bs);
      var r' := KeepLast(xs);
      assert r == h + r';
      forall i | 0 <= i < |r|
        ensures r[i].user in Users(bs) && r[i] == bs[LastPos(bs, r[i].user)]
      {
        if i >= |h| {
          assert r[i] == r'[i - |h|];
          LastPosCons(bs, r[i].user);
        } else {
          LastPosHead(bs);
        }
      }
    }
  }

  /** Each of `r`'s ballots is by a user of `bs`, and they come in the order of those users' last ballots in `bs`. */
  ghost predicate OrderedByLastPos(bs: seq<Ballot>, r: seq<Ballot>) {
    forall i, j :: 0 <= i < j < |r| ==> LastPosBefore(bs, r[i], r[j])
  }

  ghost predicate LastPosBefore(bs: seq<Ballot>, a: Ballot, b: Ballot) {
    a.user in Users(bs) && b.user in Users(bs) && LastPos(bs, a.user) < LastPos(bs, b.user)
  }

  /** The box is ordered by the position of each user's last ballot, so no user appears twice. */
  lemma {:induction false} KeepLastOrdered(bs: seq<Ballot>)
    ensures OrderedByLastPos(bs, KeepLast(bs))
    decreases |bs|
  {
    if |bs| > 0 {
      var xs := bs[1..];
      KeepLastOrdered(xs);
      KeepLastIsLast(xs);
      var h := if bs[0].user in Users(xs) then [] else [bs[0]];
      var r := KeepLast(bs);
      var r' := KeepLast(xs);
      assert r == h + r';
      forall i, j | 0 <= i < j < |r|
        ensures LastPosBefore(bs, r[i], r[j])
      {
        assert r[j] == r'[j - |h|];
        LastPosCons(bs, r[j].user);
        if i >= |h| {
          assert r[i] == r'[i - |h|];
          LastPosCons(bs, r[i].user);
        } else {
          LastPosHead(bs);
        }
      }
    } else {
      assert KeepLast(bs) == [];
    }
  }

  /** Every user who voted has a ballot in the box. */
  lemma {:induction false} KeepLastCovers(bs: seq<Ballot>)
    ensures forall u :: u in Users(bs) ==> u in Users(KeepLast(bs))
    decreases |bs|
  {
    if |bs| > 0 {
      var xs := bs[1..];
      KeepLastCovers(xs);
      var h := if bs[0].user in Users(xs) then [] else [bs[0]];
      var r := KeepLast(bs);
      var r' := KeepLast(xs);
      assert r == h + r';
      assert Users(bs) == {bs[0].user} + Users(xs);
      UsersAppend(h, r');
    }
  }

  lemma UsersAppend(a: seq<Ballot>, b: seq<Ballot>)
    ensures Users(a + b) == Users(a) + Users(b)
  {
    forall x | x in Users(a + b) ensures x in Users(a) + Users(b) {
      UsersWitness(a + b, x);
      var i :| 0 <= i < |a + b| && (a + b)[i].user == x;
      if i >= |a| { assert b[i - |a|] == (a + b)[i]; }
    }
    forall x | x in Users(a) + Users(b) ensures x in Users(a + b) {
      if x in Users(b) {
        UsersWitness(b, x);
        var i :| 0 <= i < |b| && b[i].user == x;
        assert (a + b)[|a| + i] == b[i];
      } else {
        UsersWitness(a, x);
        var i :| 0 <= i < |a| && a[i].user == x;
        assert (a + b)[i] == a[i];
      }
    }
  }

  lemma UsersReverse(a: seq<Ballot>)
    ensures Users(Reverse(a)) == Users(a)
  {
    forall x | x in Users(a) ensures x in Users(Reverse(a)) {
      UsersWitness(a, x);
      var i :| 0 <= i < |a| && a[i].user == x;
      assert Reverse(a)[|a| - 1 - i] == a[i];
    }
    forall x | x in Users(Reverse(a)) ensures x in Users(a) {
      UsersWitness(Reverse(a), x);
      var i :| 0 <= i < |Reverse(a)| && Reverse(a)[i].user == x;
      assert Reverse(a)[i] == a[|a| - 1 - i];
    }
  }

  /** Reversing, keeping each user's first ballot and reversing back keeps each user's last ballot. */
  lemma {:induction false} ReverseKeepFirst(bs: seq<Ballot>)
    ensures Reverse(KeepFirst(Reverse(bs))) == KeepLast(bs)
    decreases |bs|
  {
    if |bs| > 0 {
      var x, xs := bs[0], bs[1..];
      ReverseKeepFirst(xs);
      var rx := Reverse(xs);
      assert Reverse(bs) == rx + [x];
      assert (rx + [x])[..|rx + [x]| - 1] == rx;
      UsersReverse(xs);
      var h := if x.user in Users(xs) then [] else [x];
      assert KeepFirst(Reverse(bs)) == KeepFirst(rx) + h;
      ReverseAppend(KeepFirst(rx), h);
      assert Reverse(h) == h;
    }
  }

  /**
   * `Election.Box`: every ballot of the chain in order, then only each
   * user's last one, computed as the source does — reverse, keep first
   * ballots, reverse back. The chain must have its genesis block.
   */
  method Box(chain: seq<Block>) returns (r: Result<seq<Ballot>>)
    ensures |chain| == 0 ==> r.Err?
    ensures |chain| > 0 ==> r == Ok(KeepLast(BallotsOf(chain)))
  {
    if |chain| == 0 {
      return Err("no genesis block");
    }
    var ballots := CollectBallots(chain);
    var rev := ReverseFromEnds(ballots);
    var unique := FirstPerUser(rev);
    var back := ReverseFromEnds(unique);
    ReverseKeepFirst(ballots);
    return Ok(back);
  }

  /** The walk along the chain gathering every block's ballot, in order. */
  method CollectBallots(chain: seq<Block>) returns (ballots: seq<Ballot>)
    ensures ballots == BallotsOf(chain)
  {
    ballots := [];
    var n := 0;
    while n < |chain|
      invariant 0 <= n <= |chain| && ballots == BallotsOf(chain[..n])
    {
      var b := chain[n];
      if b.tx.Some? && b.tx.value.ballot.Some? {
        ballots := ballots + [b.tx.value.ballot.value];
      }
      assert chain[..n + 1][..n] == chain[..n];
      n := n + 1;
    }
    assert chain[..n] == chain;
  }

  /** One more ballot extends the kept list and the user set by that ballot alone. */
  lemma KeepFirstStep(rs: seq<Ballot>, k: int, unique: seq<Ballot>, seen: set<int>)
    requires 0 <= k < |rs|
    requires unique == KeepFirst(rs[..k]) && seen == Users(rs[..k])
    ensures (if rs[k].user in seen then unique else unique + [rs[k]]) == KeepFirst(rs[..k + 1])
    ensures seen + {rs[k].user} == Users(rs[..k + 1])
  {
    assert rs[..k + 1][..k] == rs[..k];
    UsersAppend(rs[..k], [rs[k]]);
    assert rs[..k + 1] == rs[..k] + [rs[k]];
  }

  /** The pass over the reversed ballots keeping each user's first one. */
  method FirstPerUser(rev: seq<Ballot>) returns (unique: seq<Ballot>)
    ensures unique == KeepFirst(rev)
  {
    var seen: set<int> := {};
    unique := [];
    var k := 0;
    while k < |rev|
      invariant 0 <= k <= |rev| && unique == KeepFirst(rev[..k]) && seen == Users(rev[..k])
    {
      KeepFirstStep(rev, k, unique, seen);
      if rev[k].user !in seen {
        unique := unique + [rev[k]];
        seen := seen + {rev[k].user};
      }
      k := k + 1;
    }
    assert rev[..k] == rev;
  }

  // ---------------------------------------------------------------------
  // Mixes and partials
  // ---------------------------------------------------------------------

  /**
   * The walk back from the latest block: blocks without a transaction are
   * skipped, the walk ends at the first transaction for which `stops`
   * holds, and `pick` chooses what is collected. The result is newest first.
   */
  function WalkBack<T>(chain: seq<Block>, stops: Transaction -> bool, pick: Transaction -> Option<T>): (r: seq<T>)
    decreases |chain|
  {
    if |chain| == 0 then []
    else
      var rest := chain[..|chain| - 1];
      match chain[|chain| - 1].tx
      case None => WalkBack(rest, stops, pick)
      case Some(tx) =>
        if stops(tx) then []
        else (if pick(tx).Some? then [pick(tx).value] else []) + WalkBack(rest, stops, pick)
  }

  /** Where the blocks after the last stopping transaction begin. */
  function TailStart(chain: seq<Block>, stops: Transaction -> bool): (k: nat)
    ensures k <= |chain|
    ensures forall j :: k <= j < |chain| && chain[j].tx.Some? ==> !stops(chain[j].tx.value)
    ensures k > 0 ==> chain[k - 1].tx.Some? && stops(chain[k - 1].tx.value)
    decreases |chain|
  {
    if |chain| == 0 then 0
    else
      var last := chain[|chain| - 1];
      if last.tx.Some? && stops(last.tx.value) then |chain|
      else TailStart(chain[..|chain| - 1], stops)
  }

  /** What `pick` chooses in the blocks, in chain order: the forward reference. */
  function Picked<T>(blocks: seq<Block>, pick: Transaction -> Option<T>): (r: seq<T>)
    decreases |blocks|
  {
    if |blocks| == 0 then []
    else
      var b := blocks[|blocks| - 1];
      Picked(blocks[..|blocks| - 1], pick)
      + (if b.tx.Some? && pick(b.tx.value).Some? then [pick(b.tx.value).value] else [])
  }

  /** The walk back, turned around, is what is picked after the last stopping transaction. */
  lemma {:induction false} WalkBackPicksTail<T>(chain: seq<Block>, stops: Transaction -> bool, pick: Transaction -> Option<T>)
    ensures Reverse(WalkBack(chain, stops, pick)) == Picked(chain[TailStart(chain, stops)..], pick)
    decreases |chain|
  {
    if |chain| > 0 {
      var rest := chain[..|chain| - 1];
      var last := chain[|chain| - 1];
      var k := TailStart(chain, stops);
      if last.tx.Some? && stops(last.tx.value) {
        assert chain[k..] == [];
      } else {
        WalkBackPicksTail(rest, stops, pick);
        assert k == TailStart(rest, stops);
        var tail := chain[k..];
        assert tail[..|tail| - 1] == rest[k..];
        assert tail[|tail| - 1] == last;
        var h := if last.tx.Some? && pick(last.tx.value).Some? then [pick(last.tx.value).value] else [];
        assert WalkBack(chain, stops, pick) == h + WalkBack(rest, stops, pick);
        ReverseAppend(h, WalkBack(rest, stops, pick));
        assert Reverse(h) == h;
      }
    }
  }

  predicate EndsMixes(tx: Transaction) { tx.mix.None? && tx.partial.None? }
  function PickMix(tx: Transaction): Option<Mix> { tx.mix }

  predicate EndsPartials(tx: Transaction) { tx.partial.None? }
  function PickPartial(tx: Transaction): Option<Partial> { tx.partial }

  /**
   * `Election.Mixes`: the mixes of the blocks after the last transaction
   * that holds neither a mix nor a partial, in chain order. The chain must
   * have its latest block.
   */
  method Mixes(chain: seq<Block>) returns (r: Result<seq<Mix>>)
    ensures |chain| == 0 ==> r.Err?
    ensures |chain| > 0 ==> r == Ok(Picked(chain[TailStart(chain, EndsMixes)..], PickMix))
  {
    if |chain| == 0 {
      return Err("no latest block");
    }
    var back := WalkBack(chain, EndsMixes, PickMix);
    var mixes := ReverseFromMiddle(back);
    WalkBackPicksTail(chain, EndsMixes, PickMix);
    return Ok(mixes);
  }

  /**
   * `Election.Partials`: the partial decryptions of the blocks after the
   * last transaction without one, in chain order.
   */
  method Partials(chain: seq<Block>) returns (r: Result<seq<Partial>>)
    ensures |chain| == 0 ==> r.Err?
    ensures |chain| > 0 ==> r == Ok(Picked(chain[TailStart(chain, EndsPartials)..], PickPartial))
  {
    if |chain| == 0 {
      return Err("no latest block");
    }
    var back := WalkBack(chain, EndsPartials, PickPartial);
    var partials := ReverseFromMiddle(back);
    WalkBackPicksTail(chain, EndsPartials, PickPartial);
    return Ok(partials);
  }

  /** floor(2n/3) + 1 for a roster of n nodes. */
  function Threshold(n: nat): (t: nat)
    ensures 3 * t > 2 * n && 3 * (t - 1) <= 2 * n
  {
    2 * n / 3 + 1
  }

  /**
   * `setStage`: Decrypted once a threshold of partials is on the chain,
   * else Shuffled once a threshold of mixes is, else Running.
   */
  method SetStage(e: Election, chain: seq<Block>) returns (r: Result<Election>)
    ensures |chain| == 0 ==> r.Err?
    ensures r.Ok? ==> r.value == e.(stage := r.value.stage)
    ensures |chain| > 0 ==>
      var ps := Picked(chain[TailStart(chain, EndsPartials)..], PickPartial);
      var ms := Picked(chain[TailStart(chain, EndsMixes)..], PickMix);
      && r.Ok?
      && (r.value.stage == Decrypted <==> |ps| >= Threshold(e.rosterSize))
      && (r.value.stage == Shuffled <==> |ps| < Threshold(e.rosterSize) && |ms| >= Threshold(e.rosterSize))
  {
    var threshold := Threshold(e.rosterSize);
    var partials := Partials(chain);
    if partials.Err? {
      return Err(partials.msg);
    }
    if |partials.value| >= threshold {
      return Ok(e.(stage := Decrypted));
    }
    var mixes := Mixes(chain);
    match mixes
    case Err(m) =>
      return Err(m);
    case Ok(ms) =>
      if |ms| >= threshold {
        return Ok(e.(stage := Shuffled));
      }
      return Ok(e.(stage := Running));
  }

  // ---------------------------------------------------------------------
  // Voted, users, creator
  // ---------------------------------------------------------------------

  predicate Tallies(b: Block) {
    b.tx.Some? && (b.tx.value.mix.Some? || b.tx.value.partial.Some?)
  }

  predicate BallotBy(b: Block, user: int) {
    b.tx.Some? && b.tx.value.ballot.Some? && b.tx.value.user == user
  }

  /** The position of the first block holding a mix or a partial, or the chain's length. */
  function FirstTally(chain: seq<Block>): (k: nat)
    ensures k <= |chain|
    ensures forall j :: 0 <= j < k ==> !Tallies(chain[j])
    ensures k < |chain| ==> Tallies(chain[k])
    decreases |chain|
  {
    if |chain| == 0 then 0
    else if Tallies(chain[0]) then 0
    else 1 + FirstTally(chain[1..])
  }

  /** How many blocks `setVoted` reads: up to and including the first that holds a mix or a partial. */
  function Scanned(chain: seq<Block>): (n: nat)
    ensures n <= |chain|
  {
    if FirstTally(chain) < |chain| then FirstTally(chain) + 1 else |chain|
  }

  /** The position of the last block holding a ballot by the user. */
  function LastBallot(blocks: seq<Block>, user: int): (r: Option<nat>)
    ensures r.Some? ==> r.value < |blocks| && BallotBy(blocks[r.value], user)
    ensures r.Some? ==> forall j :: r.value < j < |blocks| ==> !BallotBy(blocks[j], user)
    ensures r.None? ==> forall j :: 0 <= j < |blocks| ==> !BallotBy(blocks[j], user)
    decreases |blocks|
  {
    if |blocks| == 0 then None
    else if BallotBy(blocks[|blocks| - 1], user) then Some(|blocks| - 1)
    else LastBallot(blocks[..|blocks| - 1], user)
  }

  /** The hash of the last block among the first n holding the user's ballot, or `prev` when none does. */
  function VotedIn(chain: seq<Block>, n: nat, user: int, prev: seq<byte>): seq<byte>
    requires n <= |chain|
  {
    match LastBallot(chain[..n], user)
    case None => prev
    case Some(k) => chain[k].hash
  }

  /**
   * `setVoted`: scanning forward from the genesis block, Voted becomes the
   * hash of the last block holding a ballot by the user, up to and
   * including the first block that holds a mix or a partial; it keeps its
   * value when there is no such ballot.
   */
  method SetVoted(e: Election, chain: seq<Block>, user: int) returns (r: Result<Election>)
    ensures |chain| == 0 ==> r.Err?
    ensures |chain| > 0 ==> r == Ok(e.(voted := VotedIn(chain, Scanned(chain), user, e.voted)))
  {
    if |chain| == 0 {
      return Err("Election skipchain empty");
    }
    var voted := e.voted;
    var n := 0;
    var stop := false;
    while n < |chain| && !stop
      invariant 0 <= n <= |chain|
      invariant voted == VotedIn(chain, n, user, e.voted)
      invariant !stop ==> n <= FirstTally(chain)
      invariant stop ==> n == FirstTally(chain) + 1
      decreases |chain| - n
    {
      assert chain[..n + 1][..n] == chain[..n];
      var b := chain[n];
      if b.tx.Some? {
        if b.tx.value.ballot.Some? && b.tx.value.user == user {
          voted := b.hash;
        }
        if b.tx.value.mix.Some? || b.tx.value.partial.Some? {
          stop := true;
        }
      }
      n := n + 1;
    }
    return Ok(e.(voted := voted));
  }

  /** `IsUser`: whether the user is one of the election's registered voters. */
  method IsUser(e: Election, user: int) returns (r: bool)
    ensures r <==> user in e.users
  {
    var i := 0;
    while i < |e.users|
      invariant 0 <= i <= |e.users|
      invariant forall k :: 0 <= k < i ==> e.users[k] != user
    {
      if e.users[i] == user {
        return true;
      }
      i := i + 1;
    }
    return false;
  }

  /** `IsCreator`: whether the user is the one who created the election. */
  function IsCreator(e: Election, user: int): (r: bool)
    ensures r <==> user == e.creator
  {
    user == e.creator
  }
}
