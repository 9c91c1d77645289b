/**
 * Block assembly and verification of the ByzCoin service
 * (byzcoin/service.go): running client transactions against a copy of the
 * state trie, the leader's planning mode, the per-chain cache of results,
 * the follower's recomputation of a proposed block, transaction admission,
 * view-change detection and the leader-rotation time window.
 *
 * Time is a number of nanoseconds passed in by the caller. Hashing, the
 * trie's root, protobuf sizes and decoding are functions in `Ledger`.
 */
module Service {
  import opened Wrappers
  import opened Bytes
  import opened Tx
  import opened State

  const CurrentVersion: int := 1
  const Second: int := 1_000_000_000
  /** Block interval used when the configuration cannot be read. */
  const DefaultInterval: int := 5 * Second
  /** Maximum block size used when the configuration cannot be read. */
  const DefaultMaxBlockSize: int := 4_000_000
  /** Lower bound of the accepted timestamp deviation. */
  const MinTimestampWindow: int := 10 * Second
  /** Block intervals a rotation slot of the leader election lasts. */
  const RotationWindow: int := 10
  /** A timeout of zero switches planning mode off. */
  const NoTimeout: int := 0
  const MaxInt32: int := 0x7fff_ffff

  /** The collaborators of the service that the model does not define. */
  datatype Ledger = Ledger(
    sha: Hasher,
    rootOf: Trie -> seq<byte>,
    encodeChange: Encoder,
    encodedSize: TxResult -> Option<nat>,
    decodeConfig: ConfigDecoder,
    contracts: map<string, ContractFn>)

  /** Every result can be encoded. */
  predicate Encodable(l: Ledger, txs: seq<TxResult>) {
    forall k | 0 <= k < |txs| :: l.encodedSize(txs[k]).Some?
  }

  /** The summed encoded sizes of encodable results. */
  function SizeSum(l: Ledger, txs: seq<TxResult>): nat
    requires Encodable(l, txs)
    decreases |txs|
  {
    if |txs| == 0 then 0 else l.encodedSize(txs[0]).value + SizeSum(l, txs[1..])
  }

  /**
   * `txSize`: the summed encoded sizes, or MaxInt32 as soon as one result
   * cannot be encoded, so that the caller refuses it.
   */
  function TxSize(l: Ledger, txs: seq<TxResult>): (n: int)
    ensures Encodable(l, txs) ==> n == SizeSum(l, txs)
    ensures !Encodable(l, txs) ==> n == MaxInt32
    decreases |txs|
  {
    if |txs| == 0 then 0
    else match l.encodedSize(txs[0])
      case None => MaxInt32
      case Some(k) =>
        var rest := TxSize(l, txs[1..]);
        assert Encodable(l, txs) <==> Encodable(l, txs[1..]) by {
          assert forall j | 1 <= j < |txs| :: txs[1..][j - 1] == txs[j];
        }
        if Encodable(l, txs[1..]) then k + rest else MaxInt32
  }

  /** Interval, maximum block size and the error of loading the configuration. */
  datatype BlockInfo = BlockInfo(interval: int, maxsz: int, err: Option<string>)

  /**
   * `LoadBlockInfo`: the configured values, or the defaults when the
   * configuration is missing (no error) or unreadable (with the error).
   */
  function LoadBlockInfo(l: Ledger, t: Trie): (r: BlockInfo)
    ensures LoadConfig(l.decodeConfig, t).Found? ==>
      r == BlockInfo(LoadConfig(l.decodeConfig, t).config.blockInterval,
                     LoadConfig(l.decodeConfig, t).config.maxBlockSize, None)
    ensures !LoadConfig(l.decodeConfig, t).Found? ==>
      r.interval == DefaultInterval && r.maxsz == DefaultMaxBlockSize
    ensures r.err.Some? <==> LoadConfig(l.decodeConfig, t).Broken?
  {
    match LoadConfig(l.decodeConfig, t)
    case Found(c) => BlockInfo(c.blockInterval, c.maxBlockSize, None)
    case KeyNotSet => BlockInfo(DefaultInterval, DefaultMaxBlockSize, None)
    case Broken(m) => BlockInfo(DefaultInterval, DefaultMaxBlockSize, Some(m))
  }

  /**
   * `executeInstruction`: runs the contract registered for the instance's
   * contract ID. A missing instance, an unknown contract, a contract error
   * and a recovered panic are all errors.
   */
  function ExecuteInstruction(l: Ledger, t: Trie, cin: seq<Coin>, instr: Instruction): (r: Result<(seq<StateChange>, seq<Coin>)>)
    ensures r.Ok? <==>
      (GetContractID(t, instr.instanceID).Ok?
       && GetContractID(t, instr.instanceID).value in l.contracts
       && l.contracts[GetContractID(t, instr.instanceID).value](t, instr, cin).Done?)
    ensures r.Ok? ==>
      l.contracts[GetContractID(t, instr.instanceID).value](t, instr, cin) == Done(r.value.0, r.value.1)
  {
    match GetContractID(t, instr.instanceID)
    case Err(m) => Err("Couldn't get contract type of instruction: " + m)
    case Ok(cid) =>
      if cid !in l.contracts then Err("Leader is dropping instruction of unknown contract: " + cid)
      else match l.contracts[cid](t, instr, cin)
        case Done(scs, cout) => Ok((scs, cout))
        case Failed(m) => Err(m)
        case Panicked(m) => Err(m)
  }

  /**
   * The instructions of one transaction run on a private copy of the trie.
   * `ok` says whether every instruction ran and every change was stored;
   * `states` holds the changes of the instructions that did, and `cin` the
   * coins the last of them returned.
   */
  datatype TxRun = TxRun(ok: bool, trie: Trie, cin: seq<Coin>, states: seq<StateChange>)

  /** The running state of the inner loop: the working trie, the coins and the changes so far. */
  datatype Running = Running(trie: Trie, cin: seq<Coin>, states: seq<StateChange>)

  /**
   * One pass of the inner loop: execute the instruction, then store each of
   * its changes. None when either step fails; otherwise the trie with the
   * changes stored, the returned coins and the changes.
   */
  function ExecuteAndStore(l: Ledger, t: Trie, cin: seq<Coin>, instr: Instruction): (r: Option<Running>)
    ensures r.Some? <==>
      ExecuteInstruction(l, t, cin, instr).Ok? && StoreAll(t, ExecuteInstruction(l, t, cin, instr).value.0).Ok?
    ensures r.Some? ==>
      && ExecuteInstruction(l, t, cin, instr).value == (r.value.states, r.value.cin)
      && StoreAll(t, r.value.states) == Ok(r.value.trie)
  {
    match ExecuteInstruction(l, t, cin, instr)
    case Err(_) => None
    case Ok(res) =>
      match StoreAll(t, res.0)
      case Err(_) => None
      case Ok(t1) => Some(Running(t1, res.1, res.0))
  }

  /** The inner loop of `createStateChanges` over one transaction's instructions. */
  function RunInstructions(l: Ledger, t: Trie, cin: seq<Coin>, instrs: seq<Instruction>): (r: TxRun)
    ensures r.ok ==> StoreAll(t, r.states) == Ok(r.trie)
    ensures StoreAll(t, r.states).Ok?
    ensures |instrs| == 0 ==> r.ok && r.trie == t && r.states == []
    decreases |instrs|
  {
    if |instrs| == 0 then TxRun(true, t, cin, [])
    else match ExecuteAndStore(l, t, cin, instrs[0])
      case None => TxRun(false, t, cin, [])
      case Some(n) =>
        var rest := RunInstructions(l, n.trie, n.cin, instrs[1..]);
        StoreAllAppend(t, n.states, rest.states);
        TxRun(rest.ok, rest.trie, rest.cin, n.states + rest.states)
  }

  /**
   * Reference definition of the inner loop, counted forwards: the running
   * state after the first `k` instructions all executed and stored their
   * changes, or None when one of them failed.
   */
  function RunPrefix(l: Ledger, t: Trie, cin: seq<Coin>, instrs: seq<Instruction>, k: nat): Option<Running>
    requires k <= |instrs|
  {
    if k == 0 then Some(Running(t, cin, []))
    else match RunPrefix(l, t, cin, instrs, k - 1)
      case None => None
      case Some(p) =>
        match ExecuteAndStore(l, p.trie, p.cin, instrs[k - 1])
        case None => None
        case Some(n) => Some(Running(n.trie, n.cin, p.states + n.states))
  }

  /**
   * After any prefix that ran, the loop goes on from the prefix's running
   * state, and its changes follow the prefix's changes.
   */
  lemma {:induction false} RunSplits(l: Ledger, t: Trie, cin: seq<Coin>, instrs: seq<Instruction>, k: nat)
    requires k <= |instrs| && RunPrefix(l, t, cin, instrs, k).Some?
    ensures var p := RunPrefix(l, t, cin, instrs, k).value;
      var rest := RunInstructions(l, p.trie, p.cin, instrs[k..]);
      RunInstructions(l, t, cin, instrs) == TxRun(rest.ok, rest.trie, rest.cin, p.states + rest.states)
  {
    if k == 0 {
      assert instrs[0..] == instrs;
    } else {
      RunSplits(l, t, cin, instrs, k - 1);
      var q := RunPrefix(l, t, cin, instrs, k - 1).value;
      var n := ExecuteAndStore(l, q.trie, q.cin, instrs[k - 1]).value;
      var xs := instrs[k - 1..];
      assert xs[0] == instrs[k - 1] && xs[1..] == instrs[k..];
      var rest := RunInstructions(l, n.trie, n.cin, instrs[k..]);
      var r0 := RunInstructions(l, q.trie, q.cin, xs);
      assert r0 == TxRun(rest.ok, rest.trie, rest.cin, n.states + rest.states);
      Reassociate(RunInstructions(l, t, cin, instrs), r0, rest, q.states, n.states);
    }
  }

  /** Two passes of the loop's result combination make one. */
  lemma Reassociate(r: TxRun, r0: TxRun, rest: TxRun, qs: seq<StateChange>, ns: seq<StateChange>)
    requires r == TxRun(r0.ok, r0.trie, r0.cin, qs + r0.states)
    requires r0 == TxRun(rest.ok, rest.trie, rest.cin, ns + rest.states)
    ensures r == TxRun(rest.ok, rest.trie, rest.cin, (qs + ns) + rest.states)
  {
    assert qs + (ns + rest.states) == (qs + ns) + rest.states;
  }

  /** A failing prefix has a first failing instruction. */
  lemma {:induction false} FirstFailure(l: Ledger, t: Trie, cin: seq<Coin>, instrs: seq<Instruction>, n: nat)
    returns (k: nat)
    requires n <= |instrs| && RunPrefix(l, t, cin, instrs, n).None?
    ensures k < n && RunPrefix(l, t, cin, instrs, k).Some? && RunPrefix(l, t, cin, instrs, k + 1).None?
  {
    if RunPrefix(l, t, cin, instrs, n - 1).Some? {
      k := n - 1;
    } else {
      k := FirstFailure(l, t, cin, instrs, n - 1);
    }
  }

  /**
   * A transaction is accepted exactly when every instruction executed on
   * the running state and every change it returned was stored; then the
   * loop ends in the running state after all of them.
   */
  lemma RunAllSteps(l: Ledger, t: Trie, cin: seq<Coin>, instrs: seq<Instruction>)
    ensures RunInstructions(l, t, cin, instrs).ok <==> RunPrefix(l, t, cin, instrs, |instrs|).Some?
    ensures RunPrefix(l, t, cin, instrs, |instrs|).Some? ==>
      var p := RunPrefix(l, t, cin, instrs, |instrs|).value;
      var r := RunInstructions(l, t, cin, instrs);
      r.trie == p.trie && r.cin == p.cin && r.states == p.states
  {
    var n := |instrs|;
    if RunPrefix(l, t, cin, instrs, n).Some? {
      RunSplits(l, t, cin, instrs, n);
      assert instrs[n..] == [];
    } else {
      var k := FirstFailure(l, t, cin, instrs, n);
      RunStopsAtFirstFailure(l, t, cin, instrs, k);
    }
  }

  /**
   * When instruction `k` is the first that fails (its contract errs or
   * panics, its contract is unknown, or a change does not store), the
   * transaction is refused, and the listed changes and the coins carried on
   * are those of instructions 0 to k - 1.
   */
  lemma RunStopsAtFirstFailure(l: Ledger, t: Trie, cin: seq<Coin>, instrs: seq<Instruction>, k: nat)
    requires k < |instrs|
    requires RunPrefix(l, t, cin, instrs, k).Some? && RunPrefix(l, t, cin, instrs, k + 1).None?
    ensures var p := RunPrefix(l, t, cin, instrs, k).value;
      var r := RunInstructions(l, t, cin, instrs);
      !r.ok && r.states == p.states && r.cin == p.cin
  {
    RunSplits(l, t, cin, instrs, k);
    var p := RunPrefix(l, t, cin, instrs, k).value;
    assert instrs[k..][0] == instrs[k];
    assert p.states + [] == p.states;
  }

  /**
   * The state of the loop over transactions: the running trie of accepted
   * transactions, the coins, the results so far, every state change
   * produced, the changes of accepted transactions only (`kept`, a name of
   * the model) and the summed size of accepted transactions.
   */
  datatype Step = Step(
    trie: Trie,
    cin: seq<Coin>,
    txOut: seq<TxResult>,
    states: seq<StateChange>,
    kept: seq<StateChange>,
    blocksz: int)

  /** The loop's end state; `stopped` when planning mode returned early. */
  datatype Run = Run(stopped: bool, step: Step)

  /**
   * The timeout of planning mode, the time the call started and the clock
   * read after the k-th transaction (counting from zero).
   */
  datatype Timing = Timing(timeout: int, start: int, clock: nat -> int)

  /** The size of the accepted results among `outs`, measured on the matching inputs. */
  function AcceptedSize(l: Ledger, ins: seq<TxResult>, outs: seq<TxResult>): int
    requires |outs| <= |ins|
    decreases |outs|
  {
    if |outs| == 0 then 0
    else (if outs[0].accepted then TxSize(l, [ins[0]]) else 0) + AcceptedSize(l, ins[1..], outs[1..])
  }

  /** What one transaction does to the loop: carry on with a new step, or stop early. */
  datatype Next = Continue(next: Step) | Stop(last: Step)

  /**
   * One pass of the outer loop of `createStateChanges`. A rejected
   * transaction keeps the trie and records a refusal; in planning mode an
   * accepted one stops the loop instead when the deadline has passed or it
   * would overflow the block; otherwise its copy of the trie becomes the
   * running trie. In every case its changes join the change list and its
   * coins are carried on.
   */
  function Advance(l: Ledger, timing: Timing, maxsz: int, tx: TxResult, s: Step): (n: Next)
    ensures var run := RunInstructions(l, s.trie, s.cin, tx.tx.instructions);
      match n
      case Continue(t) =>
        && t.txOut == s.txOut + [TxResult(tx.tx, run.ok)]
        && t.states == s.states + run.states && t.cin == run.cin
        && (run.ok ==> t.trie == run.trie && t.kept == s.kept + run.states
                       && t.blocksz == s.blocksz + TxSize(l, [tx]))
        && (!run.ok ==> t.trie == s.trie && t.kept == s.kept && t.blocksz == s.blocksz)
        && (run.ok && timing.timeout != NoTimeout ==> t.blocksz <= maxsz)
      case Stop(t) =>
        && run.ok && timing.timeout != NoTimeout
        && t == s.(cin := run.cin, states := s.states + run.states)
  {
    var txsz := TxSize(l, [tx]);
    var run := RunInstructions(l, s.trie, s.cin, tx.tx.instructions);
    if !run.ok then
      Continue(s.(cin := run.cin, txOut := s.txOut + [tx.(accepted := false)], states := s.states + run.states))
    else if timing.timeout != NoTimeout
      && (timing.clock(|s.txOut|) > timing.start + timing.timeout || s.blocksz + txsz > maxsz) then
      Stop(s.(cin := run.cin, states := s.states + run.states))
    else
      Continue(Step(run.trie, run.cin, s.txOut + [tx.(accepted := true)], s.states + run.states,
                    s.kept + run.states, s.blocksz + txsz))
  }

  /** The outer loop of `createStateChanges` over the transactions. */
  function Process(l: Ledger, timing: Timing, maxsz: int, txs: seq<TxResult>, s: Step): (r: Run)
    ensures |s.txOut| <= |r.step.txOut| <= |s.txOut| + |txs|
    ensures r.step.txOut[..|s.txOut|] == s.txOut
    ensures !r.stopped ==> |r.step.txOut| == |s.txOut| + |txs|
    ensures timing.timeout == NoTimeout ==> !r.stopped
    decreases |txs|
  {
    if |txs| == 0 then Run(false, s)
    else match Advance(l, timing, maxsz, txs[0], s)
      case Stop(t) => Run(true, t)
      case Continue(t) =>
        var r := Process(l, timing, maxsz, txs[1..], t);
        assert r.step.txOut[..|s.txOut|] == t.txOut[..|s.txOut|];
        r
  }

  /** The results of the loop, after those it started with. */
  function NewResults(l: Ledger, timing: Timing, maxsz: int, txs: seq<TxResult>, s: Step): (out: seq<TxResult>)
    ensures |out| <= |txs|
  {
    Process(l, timing, maxsz, txs, s).step.txOut[|s.txOut|..]
  }

  /** Taking a first element off the new results. */
  lemma NewResultsCons(l: Ledger, timing: Timing, maxsz: int, txs: seq<TxResult>, s: Step, t: Step, x: TxResult)
    requires |txs| > 0 && Advance(l, timing, maxsz, txs[0], s) == Continue(t) && t.txOut == s.txOut + [x]
    ensures NewResults(l, timing, maxsz, txs, s) == [x] + NewResults(l, timing, maxsz, txs[1..], t)
  {
    var r := Process(l, timing, maxsz, txs[1..], t);
    assert Process(l, timing, maxsz, txs, s) == r;
    assert r.step.txOut[..|t.txOut|] == t.txOut;
    assert r.step.txOut == t.txOut + r.step.txOut[|t.txOut|..];
  }

  /** Putting a result for the first transaction in front of results for the rest. */
  lemma TransactionsCons(x: TxResult, rest: seq<TxResult>, txs: seq<TxResult>)
    requires |rest| < |txs| && x.tx == txs[0].tx
    requires Transactions(rest) == Transactions(txs[1..][..|rest|])
    ensures Transactions([x] + rest) == Transactions(txs[..1 + |rest|])
  {
    assert txs[..1 + |rest|] == [txs[0]] + txs[1..][..|rest|];
  }

  /** The k-th new result is about the k-th input transaction. */
  lemma {:induction false} ProcessKeepsOrder(l: Ledger, timing: Timing, maxsz: int, txs: seq<TxResult>, s: Step)
    ensures var out := NewResults(l, timing, maxsz, txs, s);
      Transactions(out) == Transactions(txs[..|out|])
    decreases |txs|
  {
    if |txs| > 0 {
      match Advance(l, timing, maxsz, txs[0], s)
      case Stop(t) =>
        assert NewResults(l, timing, maxsz, txs, s) == [];
      case Continue(t) =>
        var x := t.txOut[|s.txOut|];
        assert t.txOut == s.txOut + [x];
        NewResultsCons(l, timing, maxsz, txs, s, t, x);
        ProcessKeepsOrder(l, timing, maxsz, txs[1..], t);
        var rest := NewResults(l, timing, maxsz, txs[1..], t);
        TransactionsCons(x, rest, txs);
    }
  }

  /**
   * The summed size grows by exactly the sizes of the accepted
   * transactions, and in planning mode it never exceeds the maximum.
   */
  lemma {:induction false} ProcessBudget(l: Ledger, timing: Timing, maxsz: int, txs: seq<TxResult>, s: Step)
    ensures var r := Process(l, timing, maxsz, txs, s);
      r.step.blocksz == s.blocksz + AcceptedSize(l, txs, NewResults(l, timing, maxsz, txs, s))
    ensures timing.timeout != NoTimeout && s.blocksz <= maxsz ==>
      Process(l, timing, maxsz, txs, s).step.blocksz <= maxsz
    decreases |txs|
  {
    if |txs| > 0 {
      match Advance(l, timing, maxsz, txs[0], s)
      case Stop(t) =>
        assert NewResults(l, timing, maxsz, txs, s) == [];
      case Continue(t) =>
        var x := t.txOut[|s.txOut|];
        assert t.txOut == s.txOut + [x];
        NewResultsCons(l, timing, maxsz, txs, s, t, x);
        ProcessBudget(l, timing, maxsz, txs[1..], t);
    }
  }

  /** The change list only grows: what was listed stays listed. */
  lemma {:induction false} ProcessStatesGrow(l: Ledger, timing: Timing, maxsz: int, txs: seq<TxResult>, s: Step)
    ensures var r := Process(l, timing, maxsz, txs, s);
      |s.states| <= |r.step.states| && r.step.states[..|s.states|] == s.states
    decreases |txs|
  {
    if |txs| > 0 {
      match Advance(l, timing, maxsz, txs[0], s)
      case Stop(t) =>
      case Continue(t) =>
        ProcessStatesGrow(l, timing, maxsz, txs[1..], t);
        var r := Process(l, timing, maxsz, txs[1..], t);
        assert r.step.states[..|s.states|] == r.step.states[..|t.states|][..|s.states|];
    }
  }

  /**
   * The trie the loop ends with is exactly the input trie with the changes
   * of the accepted transactions applied, in order: a rejected transaction's
   * copy is dropped whole.
   */
  lemma {:induction false} ProcessAtomic(l: Ledger, timing: Timing, maxsz: int, txs: seq<TxResult>, s: Step, coll: Trie)
    requires StoreAll(coll, s.kept) == Ok(s.trie)
    ensures StoreAll(coll, Process(l, timing, maxsz, txs, s).step.kept) == Ok(Process(l, timing, maxsz, txs, s).step.trie)
    decreases |txs|
  {
    if |txs| > 0 {
      var run := RunInstructions(l, s.trie, s.cin, txs[0].tx.instructions);
      match Advance(l, timing, maxsz, txs[0], s)
      case Stop(t) =>
      case Continue(t) =>
        if run.ok {
          StoreAllAppend(coll, s.kept, run.states);
        }
        ProcessAtomic(l, timing, maxsz, txs[1..], t, coll);
    }
  }

  /**
   * Re-running the results of a run without timeout reproduces it: the
   * same decisions, trie and accepted changes, and the same change list
   * unless the first run stopped early. The input flags do not matter, and
   * planning mode only ever cuts the list short.
   */
  lemma {:induction false} ReplayAgrees(l: Ledger, timing: Timing, maxsz: int, txs: seq<TxResult>, s: Step,
                                        replay: Timing, maxsz2: int, s2: Step)
    requires replay.timeout == NoTimeout
    requires s2 == s.(blocksz := s2.blocksz)
    ensures var r := Process(l, timing, maxsz, txs, s);
      var r2 := Process(l, replay, maxsz2, NewResults(l, timing, maxsz, txs, s), s2);
      && r2.step.txOut == r.step.txOut
      && r2.step.trie == r.step.trie
      && r2.step.kept == r.step.kept
      && (!r.stopped ==> r2.step.states == r.step.states)
    decreases |txs|
  {
    if |txs| == 0 {
      assert NewResults(l, timing, maxsz, txs, s) == [];
    } else {
      match Advance(l, timing, maxsz, txs[0], s)
      case Stop(t) =>
        assert NewResults(l, timing, maxsz, txs, s) == [];
      case Continue(t) =>
        var x := t.txOut[|s.txOut|];
        assert t.txOut == s.txOut + [x];
        NewResultsCons(l, timing, maxsz, txs, s, t, x);
        var rest := NewResults(l, timing, maxsz, txs[1..], t);
        var ins := [x] + rest;
        assert ins[0] == x && ins[1..] == rest;
        assert x.tx == txs[0].tx;
        match Advance(l, replay, maxsz2, x, s2)
        case Stop(_) =>
        case Continue(t2) =>
          assert t2 == t.(blocksz := t2.blocksz);
          ReplayAgrees(l, timing, maxsz, txs[1..], t, replay, maxsz2, t2);
    }
  }

  /** The input of `createStateChanges` is processed without a timeout. */
  function NoTiming(): (t: Timing)
    ensures t.timeout == NoTimeout
  {
    Timing(NoTimeout, 0, _ => 0)
  }

  /** The merkle root, results and state changes of one call. */
  datatype Outcome = Outcome(root: seq<byte>, txOut: seq<TxResult>, states: seq<StateChange>)

  /** One cached outcome per chain, with the digest of the results it was stored under. */
  datatype CacheEntry = CacheEntry(digest: seq<byte>, outcome: Outcome)
  type Cache = map<seq<byte>, CacheEntry>

  /** The cache answers for `digest` on chain `scID`. */
  predicate CacheHit(cache: Cache, scID: seq<byte>, digest: seq<byte>) {
    scID in cache && cache[scID].digest == digest
  }

  /** The empty step the loop starts from on trie `coll`. */
  function Start(coll: Trie): (s: Step)
    ensures StoreAll(coll, s.kept) == Ok(s.trie)
    ensures s.txOut == [] && s.states == [] && s.blocksz == 0
  {
    Step(coll, [], [], [], [], 0)
  }

  /**
   * `createStateChanges`. A cache hit under the hash of the input results
   * is returned as stored. Otherwise the transactions run on `coll` with
   * the maximum block size of its configuration; a complete run is cached
   * under the hash of its output results, while an early return of
   * planning mode leaves the cache alone and has no root.
   */
  function CreateStateChanges(l: Ledger, cache: Cache, coll: Trie, scID: seq<byte>, txIn: seq<TxResult>, timing: Timing): (r: (Outcome, Cache))
    ensures CacheHit(cache, scID, TxResultsHash(l.sha, txIn)) ==> r == (cache[scID].outcome, cache)
    ensures !CacheHit(cache, scID, TxResultsHash(l.sha, txIn)) ==>
      var run := Process(l, timing, LoadBlockInfo(l, coll).maxsz, txIn, Start(coll));
      && r.0.txOut == run.step.txOut
      && r.0.states == run.step.states
      && (run.stopped ==> r.0.root == [] && r.1 == cache)
      && (!run.stopped ==>
            r.0.root == l.rootOf(run.step.trie)
            && r.1 == cache[scID := CacheEntry(TxResultsHash(l.sha, run.step.txOut), r.0)])
  {
    var digest := TxResultsHash(l.sha, txIn);
    if CacheHit(cache, scID, digest) then (cache[scID].outcome, cache)
    else
      var run := Process(l, timing, LoadBlockInfo(l, coll).maxsz, txIn, Start(coll));
      if run.stopped then (Outcome([], run.step.txOut, run.step.states), cache)
      else
        var out := Outcome(l.rootOf(run.step.trie), run.step.txOut, run.step.states);
        (out, cache[scID := CacheEntry(TxResultsHash(l.sha, out.txOut), out)])
  }

  /**
   * Without a timeout and on a cache miss, there is one result per input
   * transaction, in order, and the returned root is that of the input trie
   * with exactly the accepted transactions' changes applied.
   */
  lemma CreateStateChangesComplete(l: Ledger, cache: Cache, coll: Trie, scID: seq<byte>, txIn: seq<TxResult>)
    requires !CacheHit(cache, scID, TxResultsHash(l.sha, txIn))
    ensures var out := CreateStateChanges(l, cache, coll, scID, txIn, NoTiming()).0;
      && Transactions(out.txOut) == Transactions(txIn)
      && exists final: Trie ::
           StoreAll(coll, Process(l, NoTiming(), LoadBlockInfo(l, coll).maxsz, txIn, Start(coll)).step.kept) == Ok(final)
           && out.root == l.rootOf(final)
  {
    var maxsz := LoadBlockInfo(l, coll).maxsz;
    var run := Process(l, NoTiming(), maxsz, txIn, Start(coll));
    ProcessAtomic(l, NoTiming(), maxsz, txIn, Start(coll), coll);
    ProcessKeepsOrder(l, NoTiming(), maxsz, txIn, Start(coll));
    assert run.step.txOut[0..] == run.step.txOut;
    assert txIn[..|txIn|] == txIn;
    assert StoreAll(coll, run.step.kept) == Ok(run.step.trie);
  }

  /**
   * In planning mode the results are a prefix of the input and the
   * accepted ones fit in the configured block size (when it is not
   * negative).
   */
  lemma PlanningFits(l: Ledger, cache: Cache, coll: Trie, scID: seq<byte>, txIn: seq<TxResult>, timing: Timing)
    requires timing.timeout != NoTimeout
    requires !CacheHit(cache, scID, TxResultsHash(l.sha, txIn))
    requires LoadBlockInfo(l, coll).maxsz >= 0
    ensures var out := CreateStateChanges(l, cache, coll, scID, txIn, timing).0;
      && |out.txOut| <= |txIn|
      && Transactions(out.txOut) == Transactions(txIn[..|out.txOut|])
      && AcceptedSize(l, txIn, out.txOut) <= LoadBlockInfo(l, coll).maxsz
  {
    var maxsz := LoadBlockInfo(l, coll).maxsz;
    var run := Process(l, timing, maxsz, txIn, Start(coll));
    ProcessKeepsOrder(l, timing, maxsz, txIn, Start(coll));
    ProcessBudget(l, timing, maxsz, txIn, Start(coll));
    assert run.step.txOut[0..] == run.step.txOut;
  }

  /**
   * A follower that recomputes, on the same trie and with a cache miss, the
   * results the leader produced reaches the same decisions, and the same
   * outcome when the leader's run was complete.
   */
  lemma FollowerReproducesLeader(l: Ledger, leaderCache: Cache, followerCache: Cache, coll: Trie,
                                 scID: seq<byte>, txIn: seq<TxResult>, timing: Timing)
    requires !CacheHit(leaderCache, scID, TxResultsHash(l.sha, txIn))
    ensures var lead := CreateStateChanges(l, leaderCache, coll, scID, txIn, timing).0;
      !CacheHit(followerCache, scID, TxResultsHash(l.sha, lead.txOut)) ==>
      var follow := CreateStateChanges(l, followerCache, coll, scID, lead.txOut, NoTiming()).0;
      && follow.txOut == lead.txOut
      && (!Process(l, timing, LoadBlockInfo(l, coll).maxsz, txIn, Start(coll)).stopped ==> follow == lead)
  {
    var maxsz := LoadBlockInfo(l, coll).maxsz;
    var run := Process(l, timing, maxsz, txIn, Start(coll));
    ReplayAgrees(l, timing, maxsz, txIn, Start(coll), NoTiming(), maxsz, Start(coll));
    assert run.step.txOut[0..] == run.step.txOut;
  }

  /** Asking again with the results of a complete run is answered from the cache. */
  lemma CacheServesOutput(l: Ledger, cache: Cache, coll: Trie, scID: seq<byte>, txIn: seq<TxResult>,
                          timing: Timing, coll2: Trie, timing2: Timing)
    requires !CacheHit(cache, scID, TxResultsHash(l.sha, txIn))
    requires !Process(l, timing, LoadBlockInfo(l, coll).maxsz, txIn, Start(coll)).stopped
    ensures var (out, cache1) := CreateStateChanges(l, cache, coll, scID, txIn, timing);
      CreateStateChanges(l, cache1, coll2, scID, out.txOut, timing2) == (out, cache1)
  {
  }

  /**
   * The cache is read under the hash of the input results but written under
   * the hash of the output: when the input's flags differ from the output's
   * and the hash tells them apart, repeating the same call runs again.
   */
  lemma CacheKeyMismatch(l: Ledger, cache: Cache, coll: Trie, scID: seq<byte>, txIn: seq<TxResult>, timing: Timing)
    requires !CacheHit(cache, scID, TxResultsHash(l.sha, txIn))
    ensures var (out, cache1) := CreateStateChanges(l, cache, coll, scID, txIn, timing);
      CacheHit(cache1, scID, TxResultsHash(l.sha, txIn)) ==>
        TxResultsHash(l.sha, txIn) == TxResultsHash(l.sha, out.txOut)
  {
  }

  /**
   * The change list is not atomic: a transaction whose first instruction
   * succeeds and whose second fails is refused, yet the first
   * instruction's change stays in the list while the trie and the accepted
   * changes stay untouched, and the coins it returned are carried on.
   */
  lemma RejectedChangesListed(l: Ledger, sc: StateChange, coin: Coin, other: ID32)
    requires ContractConfigID in l.contracts
    requires forall t, i, c :: l.contracts[ContractConfigID](t, i, c) == Done([sc], [coin])
    requires sc.action == Create
    requires other != ConfigInstanceID && other != sc.instanceID
    ensures var i1 := Instruction(ConfigInstanceID, ConfigInstanceID, 0, 2, None, Some(Invoke("x", [])), false, []);
      var i2 := i1.(instanceID := other, index := 1);
      var r := Process(l, NoTiming(), 0, [TxResult(ClientTransaction([i1, i2]), false)], Start(map[]));
      && r.step.txOut == [TxResult(ClientTransaction([i1, i2]), false)]
      && r.step.states == [sc]
      && r.step.kept == [] && r.step.trie == map[]
      && r.step.cin == [coin]
  {
    var i1 := Instruction(ConfigInstanceID, ConfigInstanceID, 0, 2, None, Some(Invoke("x", [])), false, []);
    var i2 := i1.(instanceID := other, index := 1);
    var empty: Trie := map[];
    assert ExecuteInstruction(l, empty, [], i1) == Ok(([sc], [coin]));
    var t1 := empty[sc.instanceID := EntryOf(sc)];
    assert StoreAll(empty, [sc]) == Ok(t1) by {
      assert Store(empty, sc) == Ok(t1);
      assert [sc][1..] == [];
    }
    assert GetContractID(t1, other).Err?;
    assert ExecuteInstruction(l, t1, [coin], i2).Err?;
    assert [i1, i2][1..] == [i2];
    assert RunInstructions(l, t1, [coin], [i2]) == TxRun(false, t1, [coin], []);
    var run := RunInstructions(l, empty, [], [i1, i2]);
    assert run == TxRun(false, t1, [coin], [sc]);
  }

  /** The requested view of a view change; its contents are not modelled further. */
  datatype View = View(id: seq<byte>, leaderIndex: int)

  /** The decoder of a new-view request; protobuf in the system. */
  type ViewDecoder = seq<byte> -> Option<View>

  /**
   * `isViewChangeTx`: a block is a view change when it holds one
   * transaction of one instruction whose invoke (whatever else is set) has
   * command "view_change" and a "newview" argument that decodes. A missing
   * argument is decoded as the empty buffer, as the nil slice is.
   */
  function IsViewChangeTx(decode: ViewDecoder, txs: seq<TxResult>): (r: Option<View>)
    ensures r.Some? ==>
      && |txs| == 1 && |txs[0].tx.instructions| == 1
      && txs[0].tx.instructions[0].invoke.Some?
      && txs[0].tx.instructions[0].invoke.value.command == "view_change"
      && decode(Search(txs[0].tx.instructions[0].invoke.value.args, "newview").GetOr([])) == r
    ensures |txs| == 1 && |txs[0].tx.instructions| == 1 && txs[0].tx.instructions[0].invoke.Some?
      && txs[0].tx.instructions[0].invoke.value.command == "view_change"
      && decode(Search(txs[0].tx.instructions[0].invoke.value.args, "newview").GetOr([])).Some?
      ==> r.Some?
  {
    if |txs| != 1 || |txs[0].tx.instructions| != 1 then None
    else
      var instr := txs[0].tx.instructions[0];
      if instr.invoke.None? || instr.invoke.value.command != "view_change" then None
      else decode(Search(instr.invoke.value.args, "newview").GetOr([]))
  }

  /** The tolerated deviation of a block's timestamp: four block intervals, at least ten seconds. */
  function TimestampWindow(interval: int): (w: int)
    ensures w >= MinTimestampWindow && w >= 4 * interval
    ensures w == MinTimestampWindow || w == 4 * interval
  {
    if 4 * interval < MinTimestampWindow then MinTimestampWindow else 4 * interval
  }

  /** A timestamp is refused when it is before now minus the window or after now plus the window. */
  function TimestampOK(interval: int, now: int, ts: int): (ok: bool)
    ensures ok <==> now - TimestampWindow(interval) <= ts <= now + TimestampWindow(interval)
    ensures now - MinTimestampWindow <= ts <= now + MinTimestampWindow ==> ok
  {
    var w := TimestampWindow(interval);
    !(ts < now - w || ts > now + w)
  }

  datatype Verdict = Valid | Invalid(reason: string) | Crash(reason: string)

  /**
   * The roster loop of `verifySkipBlock`: every member of the configured
   * roster must equal the block's member at the same position. A block
   * roster that is a strict prefix of the configured one is indexed out of
   * range, which crashes.
   */
  function RosterCheck(block: seq<seq<byte>>, config: seq<seq<byte>>): (v: Verdict)
    ensures v.Valid? <==> |config| <= |block| && block[..|config|] == config
    ensures v.Crash? <==> |block| < |config| && config[..|block|] == block
    decreases |config|
  {
    if |config| == 0 then Valid
    else if |block| == 0 then Crash("index out of range")
    else if block[0] != config[0] then Invalid("roster in config is not equal to the one in skipblock")
    else
      var v := RosterCheck(block[1..], config[1..]);
      assert block == [block[0]] + block[1..] && config == [config[0]] + config[1..];
      v
  }

  /** The header of a block; the leader fills it from its own run. */
  datatype Header = Header(
    collectionRoot: seq<byte>,
    clientTxHash: seq<byte>,
    stateChangesHash: seq<byte>,
    timestamp: int)

  /** A proposed block: its header and body (None when they do not decode) and its roster. */
  datatype Block = Block(
    scID: seq<byte>,
    header: Option<Header>,
    body: Option<seq<TxResult>>,
    rosterID: seq<byte>,
    roster: seq<seq<byte>>)

  /** The three header hashes have SHA-256's length. */
  predicate HeaderSizesOK(h: Header) {
    |h.collectionRoot| == 32 && |h.clientTxHash| == 32 && |h.stateChangesHash| == 32
  }

  /** The checks after recomputation: flags, the three hashes, the new configuration, roster and time. */
  function CheckOutcome(l: Ledger, coll: Trie, b: Block, h: Header, txs: seq<TxResult>, out: Outcome, now: int): (v: Verdict)
    ensures v.Valid? ==>
      && |out.txOut| == |txs|
      && (forall k | 0 <= k < |txs| :: out.txOut[k].accepted == txs[k].accepted)
      && h.clientTxHash == TxResultsHash(l.sha, out.txOut)
      && h.collectionRoot == out.root
      && h.stateChangesHash == StateChangesHash(l.sha, l.encodeChange, out.states)
      && StoreAll(coll, out.states).Ok?
      && LoadConfig(l.decodeConfig, StoreAll(coll, out.states).value).Found?
      && var cfg := LoadConfig(l.decodeConfig, StoreAll(coll, out.states).value).config;
         && cfg.rosterID == b.rosterID
         && |cfg.roster| <= |b.roster| && b.roster[..|cfg.roster|] == cfg.roster
         && TimestampOK(cfg.blockInterval, now, h.timestamp)
    ensures v.Crash? ==>
      && StoreAll(coll, out.states).Ok?
      && LoadConfig(l.decodeConfig, StoreAll(coll, out.states).value).Found?
      && |b.roster| < |LoadConfig(l.decodeConfig, StoreAll(coll, out.states).value).config.roster|
  {
    if |out.txOut| != |txs| then Invalid("transaction list length mismatch after execution")
    else if exists k | 0 <= k < |txs| :: out.txOut[k].accepted != txs[k].accepted then
      Invalid("Client Transaction accept mismatch")
    else if h.clientTxHash != TxResultsHash(l.sha, out.txOut) then Invalid("Client Transaction Hash doesn't verify")
    else if h.collectionRoot != out.root then Invalid("Collection root doesn't verify")
    else if h.stateChangesHash != StateChangesHash(l.sha, l.encodeChange, out.states) then
      Invalid("State Changes hash doesn't verify")
    else match StoreAll(coll, out.states)
      case Err(m) => Invalid(m)
      case Ok(t) =>
        match LoadConfig(l.decodeConfig, t)
        case KeyNotSet => Invalid("no config")
        case Broken(m) => Invalid(m)
        case Found(cfg) =>
          if cfg.rosterID != b.rosterID then Invalid("rosters have unequal IDs")
          else match RosterCheck(b.roster, cfg.roster)
            case Invalid(m) => Invalid(m)
            case Crash(m) => Crash(m)
            case Valid =>
              if !TimestampOK(cfg.blockInterval, now, h.timestamp) then
                Invalid("timestamp is outside the acceptable range")
              else Valid
  }

  /**
   * `verifySkipBlock`: a follower decodes the proposed block, refuses
   * anything but a view change while one is pending, recomputes the block
   * with `createStateChanges` without timeout and compares. The cache the
   * recomputation leaves is returned too.
   */
  function VerifyBlock(l: Ledger, decodeView: ViewDecoder, cache: Cache, coll: Trie, b: Block,
                       viewChangeWaiting: bool, now: int): (r: (Verdict, Cache))
    ensures r.0.Valid? || r.0.Crash? ==> b.header.Some? && HeaderSizesOK(b.header.value) && b.body.Some?
    ensures r.0.Valid? && viewChangeWaiting ==> IsViewChangeTx(decodeView, b.body.value).Some?
    ensures r.0.Valid? || r.0.Crash? ==>
      var out := CreateStateChanges(l, cache, coll, b.scID, b.body.value, NoTiming());
      && r.1 == out.1
      && CheckOutcome(l, coll, b, b.header.value, b.body.value, out.0, now) == r.0
    ensures r.1 == cache || (b.body.Some? && r.1 == CreateStateChanges(l, cache, coll, b.scID, b.body.value, NoTiming()).1)
  {
    match b.header
    case None => (Invalid("couldn't unmarshal header"), cache)
    case Some(h) =>
      if !HeaderSizesOK(h) then (Invalid("data header failed check"), cache)
      else match b.body
        case None => (Invalid("couldn't unmarshal body"), cache)
        case Some(txs) =>
          if viewChangeWaiting && IsViewChangeTx(decodeView, txs).None? then
            (Invalid("we are not accepting blocks when a view-change is in progress"), cache)
          else
            var (out, cache1) := CreateStateChanges(l, cache, coll, b.scID, txs, NoTiming());
            (CheckOutcome(l, coll, b, h, txs, out, now), cache1)
  }

  /**
   * A block built from a complete run of the leader verifies at a follower
   * that misses the cache, as long as the change list applies to the trie,
   * the resulting configuration matches the block's roster and the
   * timestamp is in the window.
   */
  lemma LeaderBlockVerifies(l: Ledger, decodeView: ViewDecoder, leaderCache: Cache, followerCache: Cache,
                            coll: Trie, scID: seq<byte>, txIn: seq<TxResult>, ts: int,
                            rosterID: seq<byte>, roster: seq<seq<byte>>, now: int)
    requires Fixed32(l.sha) && |l.rootOf(map[])| == 32 && forall t :: |l.rootOf(t)| == 32
    requires !CacheHit(leaderCache, scID, TxResultsHash(l.sha, txIn))
    requires var lead := CreateStateChanges(l, leaderCache, coll, scID, txIn, NoTiming()).0;
      && !CacheHit(followerCache, scID, TxResultsHash(l.sha, lead.txOut))
      && StoreAll(coll, lead.states).Ok?
      && LoadConfig(l.decodeConfig, StoreAll(coll, lead.states).value).Found?
      && var cfg := LoadConfig(l.decodeConfig, StoreAll(coll, lead.states).value).config;
         && cfg.rosterID == rosterID && cfg.roster == roster
         && TimestampOK(cfg.blockInterval, now, ts)
    ensures var lead := CreateStateChanges(l, leaderCache, coll, scID, txIn, NoTiming()).0;
      var h := Header(lead.root, TxResultsHash(l.sha, lead.txOut), StateChangesHash(l.sha, l.encodeChange, lead.states), ts);
      VerifyBlock(l, decodeView, followerCache, coll, Block(scID, Some(h), Some(lead.txOut), rosterID, roster), false, now).0 == Valid
  {
    var lead := CreateStateChanges(l, leaderCache, coll, scID, txIn, NoTiming()).0;
    FollowerReproducesLeader(l, leaderCache, followerCache, coll, scID, txIn, NoTiming());
    assert roster[..|roster|] == roster;
  }

  /** The buffer key of a chain: its ID bytes read as a string. */
  function ChainKey(id: seq<byte>): (k: string)
    ensures |k| == |id| && forall j | 0 <= j < |id| :: k[j] as int == id[j] as int
  {
    seq(|id|, j requires 0 <= j < |id| => (id[j] as int) as char)
  }

  /** Different chains have different buffer keys. */
  lemma ChainKeyInjective(a: seq<byte>, b: seq<byte>)
    ensures ChainKey(a) == ChainKey(b) <==> a == b
  {
    if ChainKey(a) == ChainKey(b) {
      assert forall j | 0 <= j < |a| :: a[j] as int == ChainKey(a)[j] as int == b[j] as int;
    }
  }

  /** The trie of a chain; an unknown chain gets a fresh, empty one. */
  function CollectionOf(colls: map<seq<byte>, Trie>, id: seq<byte>): Trie {
    if id in colls then colls[id] else map[]
  }

  datatype AddTxRequest = AddTxRequest(
    version: int,
    skipchainID: seq<byte>,
    transaction: ClientTransaction,
    inclusionWait: int)

  /**
   * `AddTransaction`: checks the version, that there are instructions,
   * that the ID names a genesis block, that the configuration loads and
   * that the transaction fits in a block; then buffers it for its chain.
   * `blocks` maps the known block IDs to their index.
   */
  function AddTransaction(l: Ledger, blocks: map<seq<byte>, int>, colls: map<seq<byte>, Trie>,
                          buf: TxBuffer, req: AddTxRequest): (r: Result<TxBuffer>)
    ensures r.Ok? <==>
      && req.version == CurrentVersion
      && |req.transaction.instructions| > 0
      && req.skipchainID in blocks && blocks[req.skipchainID] == 0
      && LoadBlockInfo(l, CollectionOf(colls, req.skipchainID)).err.None?
      && TxSize(l, [TxResult(req.transaction, false)]) <= LoadBlockInfo(l, CollectionOf(colls, req.skipchainID)).maxsz
    ensures r.Ok? ==> r.value == BufferAdd(buf, ChainKey(req.skipchainID), req.transaction)
  {
    if req.version != CurrentVersion then Err("version mismatch")
    else if |req.transaction.instructions| == 0 then Err("no transactions to add")
    else if req.skipchainID !in blocks || blocks[req.skipchainID] != 0 then Err("skipchain ID is does not exist")
    else
      var info := LoadBlockInfo(l, CollectionOf(colls, req.skipchainID));
      if info.err.Some? then Err(info.err.value)
      else if TxSize(l, [TxResult(req.transaction, false)]) > info.maxsz then Err("transaction too large")
      else Ok(BufferAdd(buf, ChainKey(req.skipchainID), req.transaction))
  }

  /** An admitted transaction is the last one the chain's next take returns. */
  lemma AddTransactionQueues(l: Ledger, blocks: map<seq<byte>, int>, colls: map<seq<byte>, Trie>,
                             buf: TxBuffer, req: AddTxRequest)
    requires AddTransaction(l, blocks, colls, buf, req).Ok?
    ensures var taken := BufferTake(AddTransaction(l, blocks, colls, buf, req).value, ChainKey(req.skipchainID)).0;
      |taken| > 0 && taken[|taken| - 1] == req.transaction
      && taken[..|taken| - 1] == BufferTake(buf, ChainKey(req.skipchainID)).0
  {
  }

  /** The first position of `target` in the roster, or -1. */
  function Position(roster: seq<seq<byte>>, target: seq<byte>): (pos: int)
    ensures -1 <= pos < |roster|
    ensures pos == -1 <==> target !in roster
    ensures pos >= 0 ==> roster[pos] == target && target !in roster[..pos]
    decreases |roster|
  {
    if |roster| == 0 then -1
    else if roster[0] == target then 0
    else
      var p := Position(roster[1..], target);
      assert roster == [roster[0]] + roster[1..];
      if p == -1 then -1 else p + 1
  }

  /** The heartbeat time and configuration `withinInterval` works from, when they can be loaded. */
  datatype RotationInputs = RotationInputs(heartbeat: int, interval: int, roster: seq<seq<byte>>)

  /**
   * The lookups `withinInterval` makes before it reads the clock: the chain
   * of the genesis darc, its block interval and its latest heartbeat, with
   * the chain's trie.
   */
  function RotationTiming(l: Ledger, darcToSc: map<seq<byte>, seq<byte>>, colls: map<seq<byte>, Trie>,
                          heartbeats: map<seq<byte>, int>, genesisDarcID: seq<byte>): Result<(int, int, Trie)>
  {
    if genesisDarcID !in darcToSc then Err("the specified genesis darc ID does not exist")
    else
      var scID := darcToSc[genesisDarcID];
      var coll := CollectionOf(colls, scID);
      var info := LoadBlockInfo(l, coll);
      if info.err.Some? then Err(info.err.value)
      else if scID !in heartbeats then Err("no heartbeat")
      else Ok((heartbeats[scID], info.interval, coll))
  }

  /** The configuration `withinInterval` loads once the clock check has passed. */
  function RotationConfig(l: Ledger, coll: Trie): Result<ChainConfig> {
    match LoadConfig(l.decodeConfig, coll)
    case Found(cfg) => Ok(cfg)
    case KeyNotSet => Err("key not set")
    case Broken(m) => Err(m)
  }

  /** All the inputs of `withinInterval`, when every lookup succeeds. */
  function RotationLookup(l: Ledger, darcToSc: map<seq<byte>, seq<byte>>, colls: map<seq<byte>, Trie>,
                          heartbeats: map<seq<byte>, int>, genesisDarcID: seq<byte>): Result<RotationInputs>
  {
    match RotationTiming(l, darcToSc, colls, heartbeats, genesisDarcID)
    case Err(m) => Err(m)
    case Ok((heartbeat, interval, coll)) =>
      match RotationConfig(l, coll)
      case Err(m) => Err(m)
      case Ok(cfg) => Ok(RotationInputs(heartbeat, interval, cfg.roster))
  }

  /**
   * `withinInterval`: after a heartbeat at time t, nobody may take over
   * before t + 10 intervals; then the roster member at position pos >= 1
   * may do so strictly between t + pos * 10 intervals and
   * t + (pos + 1) * 10 intervals. As in Go, the clock is checked before
   * the configuration is loaded.
   */
  function WithinInterval(l: Ledger, darcToSc: map<seq<byte>, seq<byte>>, colls: map<seq<byte>, Trie>,
                          heartbeats: map<seq<byte>, int>, genesisDarcID: seq<byte>, target: seq<byte>, now: int): (r: Result<()>)
    ensures r.Ok? ==> RotationLookup(l, darcToSc, colls, heartbeats, genesisDarcID).Ok?
    ensures r.Ok? ==>
      var inp := RotationLookup(l, darcToSc, colls, heartbeats, genesisDarcID).value;
      var slot := RotationWindow * inp.interval;
      var pos := Position(inp.roster, target);
      && pos >= 1
      && InSlot(inp.heartbeat, pos, slot, now)
      && now > inp.heartbeat + slot
    ensures RotationLookup(l, darcToSc, colls, heartbeats, genesisDarcID).Ok? ==>
      var inp := RotationLookup(l, darcToSc, colls, heartbeats, genesisDarcID).value;
      var slot := RotationWindow * inp.interval;
      var pos := Position(inp.roster, target);
      (pos >= 1 && InSlot(inp.heartbeat, pos, slot, now)) ==> r.Ok?
  {
    match RotationTiming(l, darcToSc, colls, heartbeats, genesisDarcID)
    case Err(m) => Err(m)
    case Ok((heartbeat, interval, coll)) =>
      var slot := RotationWindow * interval;
      if heartbeat + slot > now then
        SlotNotReady(heartbeat, slot, now);
        Err("not ready to accept new leader yet")
      else match RotationConfig(l, coll)
        case Err(m) => Err(m)
        case Ok(cfg) =>
          assert RotationLookup(l, darcToSc, colls, heartbeats, genesisDarcID)
            == Ok(RotationInputs(heartbeat, interval, cfg.roster));
          var pos := Position(cfg.roster, target);
          if pos == -1 || pos == 0 then Err("invalid targetPk, or position")
          else if InSlot(heartbeat, pos, slot, now) then
            SlotAfterFirst(pos, slot);
            Ok(())
          else Err("not your turn to change leader")
  }

  /** `now` falls strictly inside the `pos`-th slot after `start`. */
  predicate InSlot(start: int, pos: int, slot: int, now: int) {
    start + pos * slot < now < start + (pos + 1) * slot
  }

  lemma SlotAfterFirst(pos: int, slot: int)
    requires pos >= 1 && pos * slot < (pos + 1) * slot
    ensures slot > 0 && pos * slot >= slot
  {
    assert (pos + 1) * slot == pos * slot + slot;
    assert pos * slot == (pos - 1) * slot + slot;
    assert (pos - 1) * slot >= 0;
  }

  /** Before the first slot has passed, no position's slot has begun. */
  lemma SlotNotReady(start: int, slot: int, now: int)
    requires start + slot > now
    ensures forall pos :: pos >= 1 ==> !InSlot(start, pos, slot, now)
  {
    forall pos | pos >= 1 && InSlot(start, pos, slot, now)
      ensures false
    {
      SlotAfterFirst(pos, slot);
    }
  }

  /** Slots of different positions do not overlap. */
  lemma SlotsDisjoint(p: int, q: int, slot: int, t: int, now: int)
    requires 1 <= p < q && slot > 0
    requires t + p * slot < now < t + (p + 1) * slot
    ensures !(t + q * slot < now)
  {
    assert q * slot == (p + 1) * slot + (q - p - 1) * slot;
    assert (q - p - 1) * slot >= 0;
  }

  /** At any moment at most one roster member may take over the leadership. */
  lemma WithinIntervalExclusive(l: Ledger, darcToSc: map<seq<byte>, seq<byte>>, colls: map<seq<byte>, Trie>,
                                heartbeats: map<seq<byte>, int>, genesisDarcID: seq<byte>, a: seq<byte>, b: seq<byte>, now: int)
    requires a != b
    ensures !(WithinInterval(l, darcToSc, colls, heartbeats, genesisDarcID, a, now).Ok?
              && WithinInterval(l, darcToSc, colls, heartbeats, genesisDarcID, b, now).Ok?)
  {
    if WithinInterval(l, darcToSc, colls, heartbeats, genesisDarcID, a, now).Ok?
      && WithinInterval(l, darcToSc, colls, heartbeats, genesisDarcID, b, now).Ok? {
      var inp := RotationLookup(l, darcToSc, colls, heartbeats, genesisDarcID).value;
      var slot := RotationWindow * inp.interval;
      var p := Position(inp.roster, a);
      var q := Position(inp.roster, b);
      SlotAfterFirst(p, slot);
      assert p != q;
      if p < q {
        SlotsDisjoint(p, q, slot, inp.heartbeat, now);
      } else {
        SlotsDisjoint(q, p, slot, inp.heartbeat, now);
      }
    }
  }
}
