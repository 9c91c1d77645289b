/**
 * The ledger's global state: a key-value trie from instance IDs to
 * (value, contract ID, darc ID), and the state changes contracts emit.
 *
 * The collection library's trie, its proofs and its root hash are not
 * modelled; the root is a function passed in by the caller.
 */
module State {
  import opened Wrappers
  import opened Bytes
  import opened Tx

  datatype Entry = Entry(value: seq<byte>, contractID: string, darcID: seq<byte>)

  type Trie = map<seq<byte>, Entry>

  /** The contract ID reported for the configuration key before it is stored. */
  const ContractConfigID: string := "config"

  /** `GetValues`: the entry under a key, or an error when there is none. */
  function GetValues(t: Trie, key: seq<byte>): (r: Result<Entry>)
    ensures r.Ok? <==> key in t
    ensures r.Ok? ==> r.value == t[key]
  {
    if key in t then Ok(t[key]) else Err("no such key")
  }

  /**
   * `Instruction.GetContractState`: the contract ID stored under the
   * instruction's instance, with the configuration key answering "config"
   * before it exists.
   */
  function GetContractID(t: Trie, id: ID32): (r: Result<string>)
    ensures id in t ==> r == Ok(t[id].contractID)
    ensures id !in t ==> (r.Ok? <==> id == ConfigInstanceID)
    ensures id !in t && r.Ok? ==> r.value == ContractConfigID
  {
    if id in t then Ok(t[id].contractID)
    else if id == ConfigInstanceID then Ok(ContractConfigID)
    else Err("no such instance")
  }

  /** The entry a Create or Update writes. */
  function EntryOf(sc: StateChange): Entry {
    Entry(sc.value, sc.contractID, sc.darcID)
  }

  /**
   * `storeInColl`: Create adds an absent key, Update overwrites a present
   * key, Remove deletes a present key; anything else is an error.
   */
  function Store(t: Trie, sc: StateChange): (r: Result<Trie>)
    ensures r.Ok? <==> (sc.instanceID in t <==> sc.action != Create)
    ensures r.Ok? ==> forall k | k != sc.instanceID :: (k in r.value <==> k in t)
    ensures r.Ok? ==> forall k | k != sc.instanceID && k in t :: r.value[k] == t[k]
    ensures r.Ok? ==> (sc.instanceID in r.value <==> sc.action != Remove)
    ensures r.Ok? && sc.action != Remove ==> r.value[sc.instanceID] == EntryOf(sc)
  {
    match sc.action
    case Create =>
      if sc.instanceID in t then Err("key already exists") else Ok(t[sc.instanceID := EntryOf(sc)])
    case Update =>
      if sc.instanceID in t then Ok(t[sc.instanceID := EntryOf(sc)]) else Err("no such key")
    case Remove =>
      if sc.instanceID in t then Ok(t - {sc.instanceID}) else Err("no such key")
  }

  /** Removing what was just created gives back the trie it was created in. */
  lemma CreateThenRemove(t: Trie, sc: StateChange)
    requires sc.action == Create && Store(t, sc).Ok?
    ensures Store(Store(t, sc).value, sc.(action := Remove)) == Ok(t)
  {
    var t1 := Store(t, sc).value;
    assert t1 - {sc.instanceID} == t;
  }

  /** Storing the same Update twice is the same as storing it once. */
  lemma UpdateIdempotent(t: Trie, sc: StateChange)
    requires sc.action == Update && Store(t, sc).Ok?
    ensures Store(Store(t, sc).value, sc) == Store(t, sc)
  {
    var t1 := Store(t, sc).value;
    assert t1[sc.instanceID := EntryOf(sc)] == t1;
  }

  /**
   * What the lookups read back once a change is stored: the written entry
   * under its key after a Create or Update, nothing after a Remove, and the
   * old answer under every other key.
   */
  lemma GetAfterStore(t: Trie, sc: StateChange, key: seq<byte>)
    requires Store(t, sc).Ok?
    ensures key == sc.instanceID && sc.action != Remove ==> GetValues(Store(t, sc).value, key) == Ok(EntryOf(sc))
    ensures key == sc.instanceID && sc.action == Remove ==> GetValues(Store(t, sc).value, key).Err?
    ensures key != sc.instanceID ==> GetValues(Store(t, sc).value, key) == GetValues(t, key)
  {
  }

  /**
   * The contract ID an instruction resolves to after a change is stored:
   * the change's contract after a Create or Update; after a Remove, an
   * error except for the configuration key, which falls back to "config".
   */
  lemma ContractIDAfterStore(t: Trie, sc: StateChange, id: ID32)
    requires Store(t, sc).Ok?
    ensures id == sc.instanceID && sc.action != Remove ==>
      GetContractID(Store(t, sc).value, id) == Ok(sc.contractID)
    ensures id == sc.instanceID && sc.action == Remove ==>
      (GetContractID(Store(t, sc).value, id).Ok? <==> id == ConfigInstanceID)
    ensures id != sc.instanceID ==> GetContractID(Store(t, sc).value, id) == GetContractID(t, id)
  {
  }

  /**
   * A change built by `NewStateChange` round-trips through the trie: a
   * Create of an absent ID succeeds, and the value, contract and darc read
   * back are the arguments it was built from.
   */
  lemma NewStateChangeStored(t: Trie, id: ID32, contractID: string, value: seq<byte>, darcID: seq<byte>)
    requires id !in t
    ensures var sc := NewStateChange(Create, id, contractID, value, darcID);
      && Store(t, sc).Ok?
      && GetValues(Store(t, sc).value, id) == Ok(Entry(value, contractID, darcID))
      && GetContractID(Store(t, sc).value, id) == Ok(contractID)
  {
  }

  /** Stores the changes in order, stopping at the first that fails. */
  function StoreAll(t: Trie, scs: seq<StateChange>): Result<Trie>
    decreases |scs|
  {
    if |scs| == 0 then Ok(t)
    else match Store(t, scs[0])
      case Err(m) => Err(m)
      case Ok(t1) => StoreAll(t1, scs[1..])
  }

  /** Storing a concatenation is storing the first part, then the second. */
  lemma {:induction false} StoreAllAppend(t: Trie, a: seq<StateChange>, b: seq<StateChange>)
    ensures StoreAll(t, a + b) == (match StoreAll(t, a) case Ok(t1) => StoreAll(t1, b) case Err(m) => Err(m))
    decreases |a|
  {
    if |a| == 0 {
      assert a + b == b;
    } else {
      assert (a + b)[0] == a[0];
      assert (a + b)[1..] == a[1..] + b;
      match Store(t, a[0])
      case Err(m) =>
      case Ok(t1) =>
        StoreAllAppend(t1, a[1..], b);
    }
  }

  /** Every change creates a key or updates one that is already in `t`. */
  ghost predicate AddsOrUpdates(t: Trie, scs: seq<StateChange>) {
    forall j | 0 <= j < |scs| :: scs[j].action == Create || (scs[j].action == Update && scs[j].instanceID in t)
  }

  /**
   * A key that is new with respect to `t` keeps its entry through changes
   * that only create keys or update keys of `t`: a Create of it would fail,
   * and no Update can reach it.
   */
  lemma {:induction false} StoreAllKeeps(t: Trie, u: Trie, k: seq<byte>, scs: seq<StateChange>, t2: Trie)
    requires k in u && k !in t
    requires AddsOrUpdates(t, scs)
    requires StoreAll(u, scs) == Ok(t2)
    ensures k in t2 && t2[k] == u[k]
    decreases |scs|
  {
    if |scs| > 0 {
      var u1 := Store(u, scs[0]).value;
      assert AddsOrUpdates(t, scs[1..]) by {
        forall j | 0 <= j < |scs[1..]|
          ensures scs[1..][j].action == Create || (scs[1..][j].action == Update && scs[1..][j].instanceID in t)
        {
          assert scs[1..][j] == scs[j + 1];
        }
      }
      StoreAllKeeps(t, u1, k, scs[1..], t2);
    }
  }

  /** A coin: an amount of the currency named by an instance ID. */
  datatype Coin = Coin(name: ID32, value: int)

  /**
   * What a contract function returns: state changes and outgoing coins, an
   * error, or a panic (which the executor recovers into an error).
   */
  datatype ContractResult =
    | Done(scs: seq<StateChange>, cout: seq<Coin>)
    | Failed(msg: string)
    | Panicked(msg: string)

  /** A contract: a pure function of the read-only trie, the instruction and the incoming coins. */
  type ContractFn = (Trie, Instruction, seq<Coin>) -> ContractResult

  /** The chain configuration stored under the configuration key. */
  datatype ChainConfig = ChainConfig(
    blockInterval: int,
    maxBlockSize: int,
    rosterID: seq<byte>,
    roster: seq<seq<byte>>)

  /** Why the configuration could not be loaded. */
  datatype ConfigLookup = Found(config: ChainConfig) | KeyNotSet | Broken(msg: string)

  /** The configuration decoder; protobuf in the system. */
  type ConfigDecoder = seq<byte> -> Option<ChainConfig>

  /**
   * `loadConfigFromColl`: the value under the configuration key, which must
   * belong to the "config" contract and decode.
   */
  function LoadConfig(decode: ConfigDecoder, t: Trie): (r: ConfigLookup)
    ensures r.KeyNotSet? <==> ConfigInstanceID !in t
    ensures r.Found? <==>
      (ConfigInstanceID in t && t[ConfigInstanceID].contractID == ContractConfigID
       && decode(t[ConfigInstanceID].value).Some?)
    ensures r.Found? ==> Some(r.config) == decode(t[ConfigInstanceID].value)
  {
    if ConfigInstanceID !in t then KeyNotSet
    else
      var e := t[ConfigInstanceID];
      if e.contractID != ContractConfigID then Broken("did not get config")
      else match decode(e.value)
        case None => Broken("cannot decode config")
        case Some(c) => Found(c)
  }
}
