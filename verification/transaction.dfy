/**
 * Instructions, client transactions, their hashes and derived instance IDs,
 * state changes and the per-chain buffer of pending transactions
 * (byzcoin/transaction.go).
 *
 * SHA-256 is not modelled: every hash is computed by a `Hasher` passed in by
 * the caller, and the model proves properties of the byte strings fed to it.
 */
module Tx {
  import opened Wrappers
  import opened Bytes

  /** A hash function: SHA-256 in the system. */
  type Hasher = seq<byte> -> seq<byte>

  /** A hasher whose digests are 32 bytes long, as SHA-256's are. */
  ghost predicate Fixed32(sha: Hasher) {
    forall m :: |sha(m)| == 32
  }

  /** The fixed-size arrays `InstanceID` and `Nonce`. */
  type ID32 = s: seq<byte> | |s| == 32 witness Zeros(32)

  /** The zero instance ID is the key of the ledger configuration. */
  const ConfigInstanceID: ID32 := Zeros(32)

  /** A nonce is taken verbatim from a 32-byte buffer and is zero otherwise. */
  function NewNonce(buf: seq<byte>): (n: ID32)
    ensures |buf| == 32 ==> n == buf
    ensures |buf| != 32 ==> n == ConfigInstanceID
  {
    if |buf| == 32 then buf else Zeros(32)
  }

  /** The first 32 bytes of `buf`, zero-padded when it is shorter. */
  function NewInstanceID(buf: seq<byte>): (id: ID32)
    ensures forall k | 0 <= k < 32 :: id[k] == (if k < |buf| then buf[k] else 0)
  {
    if |buf| >= 32 then buf[..32] else buf + Zeros(32 - |buf|)
  }

  /** An instance ID converts back to itself; no bytes give the configuration key. */
  lemma NewInstanceIDRoundTrip(id: ID32)
    ensures NewInstanceID(id) == id
    ensures NewInstanceID([]) == ConfigInstanceID
  {
  }

  /** Only the first 32 bytes of the input matter. */
  lemma NewInstanceIDPrefix(a: seq<byte>, b: seq<byte>)
    requires |a| >= 32 && |b| >= 32
    ensures NewInstanceID(a) == NewInstanceID(b) <==> a[..32] == b[..32]
  {
    if NewInstanceID(a) == NewInstanceID(b) {
      assert forall k | 0 <= k < 32 :: a[..32][k] == NewInstanceID(a)[k];
    }
  }

  datatype Argument = Argument(name: string, value: seq<byte>)

  /**
   * The value of the first argument called `name`. The system answers a
   * missing argument with nil; the model answers None.
   */
  function Search(args: seq<Argument>, name: string): (r: Option<seq<byte>>)
    ensures r.None? <==> forall k | 0 <= k < |args| :: args[k].name != name
    ensures r.Some? ==>
      exists k :: 0 <= k < |args| && args[k].name == name && args[k].value == r.value
        && forall j | 0 <= j < k :: args[j].name != name
    decreases |args|
  {
    if |args| == 0 then None
    else if args[0].name == name then Some(args[0].value)
    else
      var r := Search(args[1..], name);
      assert forall k | 1 <= k < |args| :: args[1..][k - 1] == args[k];
      r
  }

  datatype Spawn = Spawn(contractID: string, args: seq<Argument>)
  datatype Invoke = Invoke(command: string, args: seq<Argument>)

  /** A signature and the identity (an opaque string) that claims it. */
  datatype Signature = Signature(signer: string, signature: seq<byte>)

  /**
   * One instruction of a client transaction. `spawn`, `invoke` and `delete`
   * stand for the three optional pointers of the message; exactly one should
   * be set. `index` and `length` are the position in the transaction.
   */
  datatype Instruction = Instruction(
    instanceID: ID32,
    nonce: ID32,
    index: int,
    length: int,
    spawn: Option<Spawn>,
    invoke: Option<Invoke>,
    delete: bool,
    signatures: seq<Signature>)

  datatype ClientTransaction = ClientTransaction(instructions: seq<Instruction>)

  datatype InstrType = InvalidInstrType | SpawnType | InvokeType | DeleteType

  /** How many of the three action pointers are set. */
  function ActionsSet(i: Instruction): nat {
    (if i.spawn.Some? then 1 else 0) + (if i.invoke.Some? then 1 else 0) + (if i.delete then 1 else 0)
  }

  /** The instruction's type: the one action that is set, or invalid. */
  function GetType(i: Instruction): (t: InstrType)
    ensures t == SpawnType <==> i.spawn.Some? && ActionsSet(i) == 1
    ensures t == InvokeType <==> i.invoke.Some? && ActionsSet(i) == 1
    ensures t == DeleteType <==> i.delete && ActionsSet(i) == 1
    ensures t == InvalidInstrType <==> ActionsSet(i) != 1
  {
    if i.spawn.Some? && i.invoke.None? && !i.delete then SpawnType
    else if i.spawn.None? && i.invoke.Some? && !i.delete then InvokeType
    else if i.spawn.None? && i.invoke.None? && i.delete then DeleteType
    else InvalidInstrType
  }

  /** The darc action an instruction asks for. */
  function Action(i: Instruction): string {
    match GetType(i)
    case SpawnType => "spawn:" + i.spawn.value.contractID
    case InvokeType => "invoke:" + i.invoke.value.command
    case DeleteType => "delete"
    case InvalidInstrType => "invalid"
  }

  /** Reads an action string back: the type and, for spawn and invoke, the name after the colon. */
  function ParseAction(a: string): (InstrType, string) {
    if |a| >= 6 && a[..6] == "spawn:" then (SpawnType, a[6..])
    else if |a| >= 7 && a[..7] == "invoke:" then (InvokeType, a[7..])
    else if a == "delete" then (DeleteType, "")
    else (InvalidInstrType, "")
  }

  /** The action string names the instruction type and its contract or command unambiguously. */
  lemma ActionRoundTrip(i: Instruction)
    ensures ParseAction(Action(i)).0 == GetType(i)
    ensures GetType(i) == SpawnType ==> ParseAction(Action(i)).1 == i.spawn.value.contractID
    ensures GetType(i) == InvokeType ==> ParseAction(Action(i)).1 == i.invoke.value.command
  {
    var a := Action(i);
    match GetType(i)
    case SpawnType =>
      assert a[..6] == "spawn:";
    case InvokeType =>
      assert a[..7] == "invoke:";
      assert a[..6] != "spawn:" by { assert a[0] != "spawn:"[0]; }
    case DeleteType =>
      assert a[0] != "spawn:"[0] && a[0] != "invoke:"[0];
    case InvalidInstrType =>
      assert a[0] != "spawn:"[0] && a[3] != "invoke:"[3] && a != "delete";
  }

  /** Names and values of the arguments, back to back, without lengths. */
  function ArgBytes(args: seq<Argument>): seq<byte>
    decreases |args|
  {
    if |args| == 0 then [] else StrBytes(args[0].name) + args[0].value + ArgBytes(args[1..])
  }

  /** The 72-byte header: instance ID, nonce and the little-endian index and length. */
  function Header(i: Instruction): (h: seq<byte>)
    ensures |h| == 72
  {
    i.instanceID + i.nonce + LE32(i.index) + LE32(i.length)
  }

  /** The bytes that `Instruction.Hash` feeds to SHA-256. */
  function HashInput(i: Instruction): seq<byte> {
    Header(i) +
    match GetType(i)
    case SpawnType => [0 as byte] + StrBytes(i.spawn.value.contractID) + ArgBytes(i.spawn.value.args)
    case InvokeType => [1 as byte] + ArgBytes(i.invoke.value.args)
    case DeleteType => [2 as byte]
    case InvalidInstrType => []
  }

  function Hash(sha: Hasher, i: Instruction): seq<byte> {
    sha(HashInput(i))
  }

  /**
   * The hash input fixes the instance ID, the nonce, index and length modulo
   * 2^32 and, beyond the header, the one-byte tag of the type.
   */
  lemma HashInputBindsHeader(a: Instruction, b: Instruction)
    requires HashInput(a) == HashInput(b)
    ensures a.instanceID == b.instanceID && a.nonce == b.nonce
    ensures a.index % U32 == b.index % U32 && a.length % U32 == b.length % U32
    ensures GetType(a) != InvalidInstrType && GetType(b) != InvalidInstrType ==>
      (GetType(a) == GetType(b) <==> HashInput(a)[72] == HashInput(b)[72])
  {
    assert Header(a) == HashInput(a)[..72] == HashInput(b)[..72] == Header(b);
    assert a.instanceID == Header(a)[..32];
    assert b.instanceID == Header(b)[..32];
    assert a.nonce == Header(a)[32..64];
    assert b.nonce == Header(b)[32..64];
    assert LE32(a.index) == Header(a)[64..68] && LE32(b.index) == Header(b)[64..68];
    assert LE32(a.length) == Header(a)[68..72] && LE32(b.length) == Header(b)[68..72];
    LE32Injective(a.index, b.index);
    LE32Injective(a.length, b.length);
  }

  /** The signatures are not part of an instruction's hash. */
  lemma HashIgnoresSignatures(i: Instruction, sigs: seq<Signature>)
    ensures HashInput(i.(signatures := sigs)) == HashInput(i)
  {
  }

  /** An invoke's command is not hashed: two invokes that differ only in the command collide. */
  lemma InvokeHashIgnoresCommand(i: Instruction, command: string)
    requires GetType(i) == InvokeType
    ensures HashInput(i.(invoke := Some(i.invoke.value.(command := command)))) == HashInput(i)
  {
  }

  /** Arguments are not length-prefixed: moving a byte from a name into the previous value is not seen. */
  lemma ArgumentsAmbiguous()
    ensures ArgBytes([Argument("ab", []), Argument("c", [])])
         == ArgBytes([Argument("a", []), Argument("bc", [])])
  {
    assert StrBytes("ab") == StrBytes("a") + StrBytes("b");
    assert StrBytes("bc") == StrBytes("b") + StrBytes("c");
  }

  /** Each signature as its 4-byte little-endian length followed by its bytes. */
  function SigBytes(sigs: seq<Signature>): seq<byte>
    decreases |sigs|
  {
    if |sigs| == 0 then []
    else LE32(|sigs[0].signature|) + sigs[0].signature + SigBytes(sigs[1..])
  }

  /** The bytes that `DeriveID` feeds to SHA-256. */
  function DeriveInput(sha: Hasher, i: Instruction, what: string): seq<byte> {
    Hash(sha, i) + LE32(|i.signatures|) + SigBytes(i.signatures) + StrBytes(what)
  }

  /** `Instruction.DeriveID(what)`: a new instance ID from the instruction, its signatures and `what`. */
  function DeriveID(sha: Hasher, i: Instruction, what: string): ID32 {
    NewInstanceID(sha(DeriveInput(sha, i, what)))
  }

  /** Every signature is shorter than 2^32 bytes, so its length prefix is exact. */
  predicate SigsFit(sigs: seq<Signature>) {
    forall k | 0 <= k < |sigs| :: |sigs[k].signature| < U32
  }

  /** The signature bytes alone, without their signers. */
  function SigValues(sigs: seq<Signature>): (r: seq<seq<byte>>)
    ensures |r| == |sigs|
    ensures forall k | 0 <= k < |sigs| :: r[k] == sigs[k].signature
  {
    seq(|sigs|, k requires 0 <= k < |sigs| => sigs[k].signature)
  }

  /** Two concatenations with equally long first parts split the same way. */
  lemma SplitAt(p: seq<byte>, q: seq<byte>, r: seq<byte>, t: seq<byte>)
    requires p + q == r + t && |p| == |r|
    ensures p == r && q == t
  {
    assert p == (p + q)[..|p|] && r == (r + t)[..|p|];
    assert q == (p + q)[|p|..] && t == (r + t)[|p|..];
  }

  /** A 4-byte prefix holding a length below 2^32 is read back exactly. */
  lemma LengthPrefix(m: nat, n: nat, q: seq<byte>, t: seq<byte>)
    requires m < U32 && n < U32
    requires LE32(m) + q == LE32(n) + t
    ensures m == n && q == t
  {
    SplitAt(LE32(m), q, LE32(n), t);
    LE32Injective(m, n);
  }

  /** The first signature's encoding, then the rest. */
  lemma SigBytesCons(a: seq<Signature>, ra: seq<byte>)
    requires |a| > 0
    ensures SigBytes(a) + ra == LE32(|a[0].signature|) + (a[0].signature + (SigBytes(a[1..]) + ra))
  {
  }

  /** The length-prefixed encoding of equally many signatures can be parsed back. */
  lemma {:induction false} SigBytesParse(a: seq<Signature>, b: seq<Signature>, ra: seq<byte>, rb: seq<byte>)
    requires |a| == |b| && SigsFit(a) && SigsFit(b)
    requires SigBytes(a) + ra == SigBytes(b) + rb
    ensures SigValues(a) == SigValues(b) && ra == rb
    decreases |a|
  {
    if |a| > 0 {
      SigBytesCons(a, ra);
      SigBytesCons(b, rb);
      LengthPrefix(|a[0].signature|, |b[0].signature|,
        a[0].signature + (SigBytes(a[1..]) + ra), b[0].signature + (SigBytes(b[1..]) + rb));
      SplitAt(a[0].signature, SigBytes(a[1..]) + ra, b[0].signature, SigBytes(b[1..]) + rb);
      assert SigsFit(a[1..]) && SigsFit(b[1..]);
      SigBytesParse(a[1..], b[1..], ra, rb);
      assert SigValues(a) == [a[0].signature] + SigValues(a[1..]);
      assert SigValues(b) == [b[0].signature] + SigValues(b[1..]);
    } else {
      assert SigBytes(a) + ra == ra && SigBytes(b) + rb == rb;
    }
  }

  /**
   * Domain separation of `DeriveID`: with 32-byte digests and fewer than 2^32
   * signatures, each shorter than 2^32 bytes, equal hash inputs come only from
   * equal instruction hashes, equal signature bytes and equal `what`.
   */
  lemma DeriveInputInjective(sha: Hasher, a: Instruction, wa: string, b: Instruction, wb: string)
    requires Fixed32(sha)
    requires |a.signatures| < U32 && |b.signatures| < U32
    requires SigsFit(a.signatures) && SigsFit(b.signatures)
    requires DeriveInput(sha, a, wa) == DeriveInput(sha, b, wb)
    ensures Hash(sha, a) == Hash(sha, b)
    ensures SigValues(a.signatures) == SigValues(b.signatures)
    ensures StrBytes(wa) == StrBytes(wb)
  {
    var ha, hb := Hash(sha, a), Hash(sha, b);
    var ta := SigBytes(a.signatures) + StrBytes(wa);
    var tb := SigBytes(b.signatures) + StrBytes(wb);
    assert |ha| == 32 && |hb| == 32;
    assert DeriveInput(sha, a, wa) == ha + (LE32(|a.signatures|) + ta);
    assert DeriveInput(sha, b, wb) == hb + (LE32(|b.signatures|) + tb);
    SplitAt(ha, LE32(|a.signatures|) + ta, hb, LE32(|b.signatures|) + tb);
    LengthPrefix(|a.signatures|, |b.signatures|, ta, tb);
    SigBytesParse(a.signatures, b.signatures, StrBytes(wa), StrBytes(wb));
  }

  /** Only the signature bytes enter `SigBytes`, not who signed. */
  lemma {:induction false} SigBytesIgnoresSigners(a: seq<Signature>, b: seq<Signature>)
    requires SigValues(a) == SigValues(b)
    ensures SigBytes(a) == SigBytes(b)
    decreases |a|
  {
    if |a| > 0 {
      assert a[0].signature == SigValues(a)[0] == SigValues(b)[0] == b[0].signature;
      assert SigValues(a[1..]) == SigValues(a)[1..] == SigValues(b)[1..] == SigValues(b[1..]);
      SigBytesIgnoresSigners(a[1..], b[1..]);
    }
  }

  /** The signer identities are not part of a derived ID. */
  lemma DeriveIDIgnoresSigners(sha: Hasher, i: Instruction, sigs: seq<Signature>, what: string)
    requires SigValues(sigs) == SigValues(i.signatures)
    ensures DeriveID(sha, i.(signatures := sigs), what) == DeriveID(sha, i, what)
  {
    SigBytesIgnoresSigners(sigs, i.signatures);
    HashIgnoresSignatures(i, sigs);
  }

  /** The instruction hashes of a transaction, back to back. */
  function InstrHashes(sha: Hasher, instrs: seq<Instruction>): seq<byte>
    decreases |instrs|
  {
    if |instrs| == 0 then [] else Hash(sha, instrs[0]) + InstrHashes(sha, instrs[1..])
  }

  /** `Instructions.Hash`. */
  function InstructionsHash(sha: Hasher, instrs: seq<Instruction>): seq<byte> {
    sha(InstrHashes(sha, instrs))
  }

  /** With 32-byte digests, the input of `InstructionsHash` fixes every instruction hash. */
  lemma {:induction false} InstrHashesInjective(sha: Hasher, a: seq<Instruction>, b: seq<Instruction>)
    requires Fixed32(sha)
    requires InstrHashes(sha, a) == InstrHashes(sha, b)
    ensures |a| == |b|
    ensures forall k | 0 <= k < |a| :: Hash(sha, a[k]) == Hash(sha, b[k])
    decreases |a|
  {
    InstrHashesLength(sha, a);
    InstrHashesLength(sha, b);
    if |a| > 0 {
      var x := InstrHashes(sha, a);
      assert Hash(sha, a[0]) == x[..32] == Hash(sha, b[0]);
      assert InstrHashes(sha, a[1..]) == x[32..] == InstrHashes(sha, b[1..]);
      InstrHashesInjective(sha, a[1..], b[1..]);
      forall k | 1 <= k < |a|
        ensures Hash(sha, a[k]) == Hash(sha, b[k])
      {
        assert a[1..][k - 1] == a[k] && b[1..][k - 1] == b[k];
      }
    }
  }

  lemma {:induction false} InstrHashesLength(sha: Hasher, a: seq<Instruction>)
    requires Fixed32(sha)
    ensures |InstrHashes(sha, a)| == 32 * |a|
    decreases |a|
  {
    if |a| > 0 {
      InstrHashesLength(sha, a[1..]);
    }
  }

  /** A transaction together with the leader's decision on it. */
  datatype TxResult = TxResult(tx: ClientTransaction, accepted: bool)

  /** Wraps transactions as not yet accepted results. */
  function NewTxResults(txs: seq<ClientTransaction>): (r: seq<TxResult>)
    ensures |r| == |txs|
    ensures forall k | 0 <= k < |r| :: r[k].tx == txs[k] && !r[k].accepted
  {
    seq(|txs|, k requires 0 <= k < |txs| => TxResult(txs[k], false))
  }

  /** The transactions of a list of results, in order. */
  function Transactions(r: seq<TxResult>): (txs: seq<ClientTransaction>)
    ensures |txs| == |r|
    ensures forall k | 0 <= k < |r| :: txs[k] == r[k].tx
  {
    seq(|r|, k requires 0 <= k < |r| => r[k].tx)
  }

  /** Wrapping and unwrapping gives back the transactions. */
  lemma NewTxResultsRoundTrip(txs: seq<ClientTransaction>)
    ensures Transactions(NewTxResults(txs)) == txs
  {
  }

  /** Per result, its instructions hash and one byte for the decision. */
  function TxResultsInput(sha: Hasher, r: seq<TxResult>): seq<byte>
    decreases |r|
  {
    if |r| == 0 then []
    else
      InstructionsHash(sha, r[0].tx.instructions) + [if r[0].accepted then 1 as byte else 0 as byte]
        + TxResultsInput(sha, r[1..])
  }

  /** `TxResults.Hash`: the hash a block stores as its client-transaction hash. */
  function TxResultsHash(sha: Hasher, r: seq<TxResult>): seq<byte> {
    sha(TxResultsInput(sha, r))
  }

  /**
   * With 32-byte digests the input of `TxResultsHash` fixes how many results
   * there are, every transaction's instructions hash and every decision.
   */
  lemma {:induction false} TxResultsInputInjective(sha: Hasher, a: seq<TxResult>, b: seq<TxResult>)
    requires Fixed32(sha)
    requires TxResultsInput(sha, a) == TxResultsInput(sha, b)
    ensures |a| == |b|
    ensures forall k | 0 <= k < |a| :: a[k].accepted == b[k].accepted
    ensures forall k | 0 <= k < |a| ::
      InstructionsHash(sha, a[k].tx.instructions) == InstructionsHash(sha, b[k].tx.instructions)
    decreases |a|
  {
    TxResultsInputLength(sha, a);
    TxResultsInputLength(sha, b);
    if |a| > 0 {
      var x := TxResultsInput(sha, a);
      assert InstructionsHash(sha, a[0].tx.instructions) == x[..32] == InstructionsHash(sha, b[0].tx.instructions);
      assert x[32] == (if a[0].accepted then 1 else 0) == (if b[0].accepted then 1 else 0);
      assert TxResultsInput(sha, a[1..]) == x[33..] == TxResultsInput(sha, b[1..]);
      TxResultsInputInjective(sha, a[1..], b[1..]);
      forall k | 1 <= k < |a|
        ensures a[k].accepted == b[k].accepted
        ensures InstructionsHash(sha, a[k].tx.instructions) == InstructionsHash(sha, b[k].tx.instructions)
      {
        assert a[1..][k - 1] == a[k] && b[1..][k - 1] == b[k];
      }
    }
  }

  lemma {:induction false} TxResultsInputLength(sha: Hasher, a: seq<TxResult>)
    requires Fixed32(sha)
    ensures |TxResultsInput(sha, a)| == 33 * |a|
    decreases |a|
  {
    if |a| > 0 {
      TxResultsInputLength(sha, a[1..]);
    }
  }

  /** The input of `TxResultsHash` depends on the transactions only through their instruction hashes. */
  lemma {:induction false} TxResultsInputFlags(sha: Hasher, a: seq<TxResult>, b: seq<TxResult>)
    requires |a| == |b|
    requires forall k | 0 <= k < |a| :: a[k].tx == b[k].tx
    ensures TxResultsInput(sha, a) == TxResultsInput(sha, b) <==>
      forall k | 0 <= k < |a| :: a[k].accepted == b[k].accepted
    decreases |a|
  {
    if |a| > 0 {
      TxResultsInputFlags(sha, a[1..], b[1..]);
      var ha := InstructionsHash(sha, a[0].tx.instructions);
      var fa: seq<byte> := [if a[0].accepted then 1 as byte else 0 as byte];
      var fb: seq<byte> := [if b[0].accepted then 1 as byte else 0 as byte];
      var x := TxResultsInput(sha, a);
      var y := TxResultsInput(sha, b);
      assert x == ha + fa + TxResultsInput(sha, a[1..]);
      assert y == ha + fb + TxResultsInput(sha, b[1..]);
      if x == y {
        assert x[|ha|] == y[|ha|];
        assert TxResultsInput(sha, a[1..]) == x[|ha| + 1..] == y[|ha| + 1..] == TxResultsInput(sha, b[1..]);
        forall k | 1 <= k < |a| ensures a[k].accepted == b[k].accepted {
          assert a[1..][k - 1] == a[k] && b[1..][k - 1] == b[k];
        }
      }
      if forall k | 0 <= k < |a| :: a[k].accepted == b[k].accepted {
        assert forall k | 0 <= k < |a[1..]| :: a[1..][k].accepted == b[1..][k].accepted;
      }
    }
  }

  /** How a state change alters the trie. */
  datatype StateAction = Create | Update | Remove

  /** The wire values of the actions: 1, 2, 3. */
  function ActionCode(a: StateAction): (n: int)
    ensures 1 <= n <= 3
  {
    match a
    case Create => 1
    case Update => 2
    case Remove => 3
  }

  /** Reads a wire value back; anything else is invalid. */
  function ActionFromCode(n: int): Option<StateAction> {
    if n == 1 then Some(Create) else if n == 2 then Some(Update) else if n == 3 then Some(Remove) else None
  }

  lemma ActionCodeRoundTrip(a: StateAction, n: int)
    ensures ActionFromCode(ActionCode(a)) == Some(a)
    ensures ActionFromCode(n).Some? <==> 1 <= n <= 3
  {
  }

  /** A change to one key of the trie, as produced by a contract. */
  datatype StateChange = StateChange(
    action: StateAction,
    instanceID: seq<byte>,
    contractID: string,
    value: seq<byte>,
    darcID: seq<byte>)

  function NewStateChange(sa: StateAction, id: ID32, contractID: string, value: seq<byte>, darcID: seq<byte>): (sc: StateChange)
    ensures sc.action == sa && sc.instanceID == id && sc.contractID == contractID
    ensures sc.value == value && sc.darcID == darcID
  {
    StateChange(sa, id, contractID, value, darcID)
  }

  /** The encoder of a state change; protobuf in the system. */
  type Encoder = StateChange -> seq<byte>

  function EncodedChanges(enc: Encoder, scs: seq<StateChange>): seq<byte>
    decreases |scs|
  {
    if |scs| == 0 then [] else enc(scs[0]) + EncodedChanges(enc, scs[1..])
  }

  /** `StateChanges.Hash`: the hash of the concatenated encodings. */
  function StateChangesHash(sha: Hasher, enc: Encoder, scs: seq<StateChange>): seq<byte> {
    sha(EncodedChanges(enc, scs))
  }

  /** The hash input of a concatenation is the concatenation of the inputs. */
  lemma {:induction false} EncodedChangesAppend(enc: Encoder, a: seq<StateChange>, b: seq<StateChange>)
    ensures EncodedChanges(enc, a + b) == EncodedChanges(enc, a) + EncodedChanges(enc, b)
    decreases |a|
  {
    if |a| == 0 {
      assert a + b == b;
    } else {
      assert (a + b)[1..] == a[1..] + b;
      EncodedChangesAppend(enc, a[1..], b);
    }
  }

  /** Pending transactions per chain, keyed by the chain ID as a string. */
  type TxBuffer = map<string, seq<ClientTransaction>>

  /** `txBuffer.add`: appends at the end of the chain's queue. */
  function BufferAdd(buf: TxBuffer, key: string, tx: ClientTransaction): (r: TxBuffer)
    ensures key in r && r[key] == (if key in buf then buf[key] else []) + [tx]
    ensures forall k | k in buf && k != key :: k in r && r[k] == buf[k]
    ensures r.Keys == buf.Keys + {key}
  {
    if key in buf then buf[key := buf[key] + [tx]] else buf[key := [tx]]
  }

  /** `txBuffer.take`: the chain's whole queue, which is removed from the buffer. */
  function BufferTake(buf: TxBuffer, key: string): (r: (seq<ClientTransaction>, TxBuffer))
    ensures r.0 == (if key in buf then buf[key] else [])
    ensures key !in r.1 && forall k | k in buf && k != key :: k in r.1 && r.1[k] == buf[k]
    ensures r.1.Keys == buf.Keys - {key}
  {
    if key in buf then (buf[key], buf - {key}) else ([], buf)
  }

  function BufferAddAll(buf: TxBuffer, key: string, txs: seq<ClientTransaction>): TxBuffer
    decreases |txs|
  {
    if |txs| == 0 then buf else BufferAddAll(BufferAdd(buf, key, txs[0]), key, txs[1..])
  }

  /** Adding transactions one by one appends them in order to the chain's queue and leaves other chains alone. */
  lemma {:induction false} BufferAddAllAppends(buf: TxBuffer, key: string, txs: seq<ClientTransaction>)
    ensures var r := BufferAddAll(buf, key, txs);
      && (|txs| > 0 ==> key in r && r[key] == (if key in buf then buf[key] else []) + txs)
      && (forall k | k != key :: (k in r <==> k in buf) && (k in buf ==> r[k] == buf[k]))
    decreases |txs|
  {
    if |txs| > 0 {
      var b1 := BufferAdd(buf, key, txs[0]);
      BufferAddAllAppends(b1, key, txs[1..]);
      if |txs| > 1 {
        assert ((if key in buf then buf[key] else []) + [txs[0]]) + txs[1..]
            == (if key in buf then buf[key] else []) + txs;
      }
    }
  }

  /** The buffer is first-in first-out: taking a chain's queue returns exactly what was added since the last take. */
  lemma BufferFifo(buf: TxBuffer, key: string, txs: seq<ClientTransaction>)
    requires key !in buf
    ensures BufferTake(BufferAddAll(buf, key, txs), key).0 == txs
    ensures BufferTake(BufferAddAll(buf, key, txs), key).1 == buf
  {
    BufferAddAllAppends(buf, key, txs);
    var r := BufferAddAll(buf, key, txs);
    if |txs| == 0 {
      assert r == buf;
    }
    assert BufferTake(r, key).1 == buf;
  }
}
