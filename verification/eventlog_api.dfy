/**
 * The event log client (eventlog/api.go): the transactions it builds to
 * create a log and to log events, and the checks it makes on a proof
 * returned for an event.
 */
module EventLogApi {
  import opened Wrappers
  import opened Bytes
  import opened Tx
  import opened State
  import opened EventLog

  /**
   * The collaborators of the client: the hash, the event encoder, and the
   * signature of one signer (named by its identity) over the darc request
   * of an instruction for a darc; None when signing fails.
   */
  datatype ApiEnv = ApiEnv(
    sha: Hasher,
    encodeEvent: Event -> Option<seq<byte>>,
    sign: (string, seq<byte>, Instruction) -> Option<seq<byte>>)

  /** The client's state: its darc, its signers' identities and the log it writes to. */
  datatype Client = Client(darcID: seq<byte>, signers: seq<string>, instance: ID32)

  /** The instruction with one empty signature per signer, naming the signer. */
  function WithIdentities(instr: Instruction, signers: seq<string>): (r: Instruction)
    ensures |r.signatures| == |signers|
    ensures forall j :: 0 <= j < |signers| ==> r.signatures[j] == Signature(signers[j], [])
    ensures r.(signatures := instr.signatures) == instr
  {
    instr.(signatures := seq(|signers|, j requires 0 <= j < |signers| => Signature(signers[j], [])))
  }

  /** The signatures of `signers[k..]` over the darc request of `instr` carrying its signers' identities. */
  function SignFrom(env: ApiEnv, darcID: seq<byte>, instr: Instruction, signers: seq<string>, k: nat): (r: Option<seq<Signature>>)
    requires k <= |signers|
    ensures r.Some? <==> forall j :: k <= j < |signers| ==> env.sign(signers[j], darcID, WithIdentities(instr, signers)).Some?
    ensures r.Some? ==> |r.value| == |signers| - k
    ensures r.Some? ==> forall j :: k <= j < |signers| ==>
      r.value[j - k] == Signature(signers[j], env.sign(signers[j], darcID, WithIdentities(instr, signers)).value)
    decreases |signers| - k
  {
    if k == |signers| then Some([])
    else match (env.sign(signers[k], darcID, WithIdentities(instr, signers)), SignFrom(env, darcID, instr, signers, k + 1))
      case (Some(sig), Some(rest)) => Some([Signature(signers[k], sig)] + rest)
      case _ => None
  }

  /**
   * `Instruction.SignBy`, and the inner loop of `makeTx`: every signer signs
   * the request of the instruction that already names all signers.
   */
  function SignAll(env: ApiEnv, darcID: seq<byte>, instr: Instruction, signers: seq<string>): (r: Option<seq<Signature>>)
    ensures r.Some? <==> forall j :: 0 <= j < |signers| ==> env.sign(signers[j], darcID, WithIdentities(instr, signers)).Some?
    ensures r.Some? ==> |r.value| == |signers| && forall j :: 0 <= j < |signers| ==>
      r.value[j] == Signature(signers[j], env.sign(signers[j], darcID, WithIdentities(instr, signers)).value)
  {
    SignFrom(env, darcID, instr, signers, 0)
  }

  /** The spawn instruction of `CreateLog`, before signing. */
  function CreateInstruction(darcID: seq<byte>): Instruction {
    Instruction(NewInstanceID(darcID), Zeros(32), 0, 1, Some(Tx.Spawn(ContractName, [])), None, false, [])
  }

  /**
   * `Client.Create`: signs one spawn of "eventlog" on the darc's instance
   * and submits it; only when the submission succeeds does the client take
   * the new log, DeriveID("") of the signed instruction, as its instance.
   * `submit` answers the submission's error, if any.
   */
  function CreateLog(env: ApiEnv, c: Client, submit: ClientTransaction -> Option<string>): (r: (Client, Option<string>))
    ensures r.1.Some? ==> r.0 == c
    ensures r.1.None? <==>
      && SignAll(env, c.darcID, CreateInstruction(c.darcID), c.signers).Some?
      && submit(ClientTransaction([CreateInstruction(c.darcID).(signatures :=
           SignAll(env, c.darcID, CreateInstruction(c.darcID), c.signers).value)])).None?
    ensures r.1.None? ==>
      var signed := CreateInstruction(c.darcID).(signatures := SignAll(env, c.darcID, CreateInstruction(c.darcID), c.signers).value);
      && r.0 == c.(instance := DeriveID(env.sha, signed, ""))
      && GetType(signed) == SpawnType && signed.spawn.value.contractID == ContractName
      && signed.instanceID == NewInstanceID(c.darcID) && signed.index == 0 && signed.length == 1
  {
    var instr := CreateInstruction(c.darcID);
    match SignAll(env, c.darcID, instr, c.signers)
    case None => (c, Some("cannot sign"))
    case Some(sigs) =>
      var signed := instr.(signatures := sigs);
      match submit(ClientTransaction([signed]))
      case Some(err) => (c, Some(err))
      case None => (c.(instance := DeriveID(env.sha, signed, "")), None)
  }

  /** The instruction `makeTx` builds for the i-th of n events, before signing. */
  function LogInstruction(id: ID32, nonce: ID32, i: int, n: int, buf: seq<byte>, signers: seq<string>): Instruction {
    WithIdentities(Instruction(id, nonce, i, n, None, Some(Tx.Invoke(ContractName, [Argument("event", buf)])), false, []), signers)
  }

  predicate AllEncode(env: ApiEnv, msgs: seq<Event>) {
    forall i :: 0 <= i < |msgs| ==> env.encodeEvent(msgs[i]).Some?
  }

  predicate AllSign(env: ApiEnv, darcID: seq<byte>, id: ID32, nonce: ID32, msgs: seq<Event>, signers: seq<string>)
    requires AllEncode(env, msgs)
  {
    forall i :: 0 <= i < |msgs| ==>
      SignAll(env, darcID, LogInstruction(id, nonce, i, |msgs|, env.encodeEvent(msgs[i]).value, signers), signers).Some?
  }

  /**
   * `makeTx`: one invoke of "eventlog" per event, all with the same nonce,
   * each carrying its encoded event as the only argument "event", then
   * signed; the keys are the IDs the events will be stored under. The
   * nonce, random in the system, is a parameter.
   */
  method MakeTx(env: ApiEnv, darcID: seq<byte>, id: ID32, msgs: seq<Event>, signers: seq<string>, nonce: ID32)
    returns (r: Result<(ClientTransaction, seq<seq<byte>>)>)
    ensures r.Ok? <==> AllEncode(env, msgs) && AllSign(env, darcID, id, nonce, msgs, signers)
    ensures r.Ok? ==>
      var (tx, keys) := r.value;
      && |tx.instructions| == |msgs| && |keys| == |msgs|
      && forall i :: 0 <= i < |msgs| ==>
        var ins := tx.instructions[i];
        && ins.instanceID == id && ins.nonce == nonce
        && ins.index == i && ins.length == |msgs|
        && GetType(ins) == InvokeType
        && ins.invoke.value == Tx.Invoke(ContractName, [Argument("event", env.encodeEvent(msgs[i]).value)])
        && |ins.signatures| == |signers|
        && (forall j :: 0 <= j < |signers| ==> ins.signatures[j].signer == signers[j])
        && keys[i] == DeriveID(env.sha, ins, "")
  {
    var bufs: seq<seq<byte>> := [];
    var i := 0;
    while i < |msgs|
      invariant 0 <= i <= |msgs| && |bufs| == i
      invariant forall k :: 0 <= k < i ==> env.encodeEvent(msgs[k]) == Some(bufs[k])
    {
      match env.encodeEvent(msgs[i])
      case None =>
        return Err("cannot encode event");
      case Some(buf) =>
        bufs := bufs + [buf];
      i := i + 1;
    }
    var instrs: seq<Instruction> := [];
    var keys: seq<seq<byte>> := [];
    i := 0;
    while i < |msgs|
      invariant 0 <= i <= |msgs| && |instrs| == i && |keys| == i
      invariant forall k :: 0 <= k < i ==>
        && SignAll(env, darcID, LogInstruction(id, nonce, k, |msgs|, bufs[k], signers), signers).Some?
        && instrs[k] == LogInstruction(id, nonce, k, |msgs|, bufs[k], signers).(signatures :=
             SignAll(env, darcID, LogInstruction(id, nonce, k, |msgs|, bufs[k], signers), signers).value)
        && keys[k] == DeriveID(env.sha, instrs[k], "")
    {
      var unsigned := LogInstruction(id, nonce, i, |msgs|, bufs[i], signers);
      match SignAll(env, darcID, unsigned, signers)
      case None =>
        return Err("cannot sign instruction");
      case Some(sigs) =>
        var signed := unsigned.(signatures := sigs);
        instrs := instrs + [signed];
        keys := keys + [DeriveID(env.sha, signed, "")];
      i := i + 1;
    }
    return Ok((ClientTransaction(instrs), keys));
  }

  /** A proof answered for a key: whether it proves inclusion, and its key and values. */
  datatype Proof = Proof(inclusion: bool, keyValue: Result<(seq<byte>, seq<seq<byte>>)>)

  /**
   * `Client.GetEvent`: the proof must be one of inclusion, for the key
   * asked, with at least two values, the first of which decodes as an event.
   */
  function GetEvent(decodeEvent: seq<byte> -> Option<Event>, key: seq<byte>, reply: Result<Proof>): (r: Result<Event>)
    ensures r.Ok? <==>
      && reply.Ok? && reply.value.inclusion && reply.value.keyValue.Ok?
      && reply.value.keyValue.value.0 == key && |reply.value.keyValue.value.1| >= 2
      && decodeEvent(reply.value.keyValue.value.1[0]).Some?
    ensures r.Ok? ==> Some(r.value) == decodeEvent(reply.value.keyValue.value.1[0])
  {
    match reply
    case Err(m) => Err(m)
    case Ok(p) =>
      if !p.inclusion then Err("not an inclusion proof")
      else match p.keyValue
        case Err(m) => Err(m)
        case Ok((k, vs)) =>
          if k != key then Err("wrong key")
          else if |vs| < 2 then Err("not enough values")
          else match decodeEvent(vs[0])
            case None => Err("cannot decode event")
            case Some(e) => Ok(e)
  }

  /**
   * The proof the ledger gives for a key of its trie: inclusion with the
   * entry's value, contract ID and darc ID when present.
   */
  function ProofOf(t: Trie, key: seq<byte>): Proof {
    if key in t then Proof(true, Ok((key, [t[key].value, StrBytes(t[key].contractID), t[key].darcID])))
    else Proof(false, Err("key not present"))
  }

  /**
   * Asked with the ledger's own proof, the client reads the same event the
   * service's lookup reads, and fails exactly when that lookup fails.
   */
  lemma GetEventAgreesWithLedger(env: LogEnv, t: Trie, key: seq<byte>)
    ensures GetEvent(env.decodeEvent, key, Ok(ProofOf(t, key))).Ok? <==> EventByID(env, t, key).Ok?
    ensures EventByID(env, t, key).Ok? ==>
      GetEvent(env.decodeEvent, key, Ok(ProofOf(t, key))).value == EventByID(env, t, key).value
  {
  }
}
