/**
 * The second copy of the car contract (byzcoin/contracts.go). It differs
 * from car/contracts.go in one place: spawning stores the "car" argument
 * without checking that it decodes as a car. `Car.Update` there is the
 * same loop as `Car.Add`.
 */
module ByzcoinCar {
  import opened Wrappers
  import opened Bytes
  import opened Tx
  import opened State
  import opened CarContract

  /** The spawn branch: contract ID "car" and a non-empty "car" argument suffice. */
  function SpawnUnchecked(env: CarEnv, inst: Instruction, darcID: seq<byte>, cin: seq<Coin>): (r: ContractResult)
    requires inst.spawn.Some?
    ensures r.Done? <==>
      && inst.spawn.value.contractID == ContractCarID
      && Search(inst.spawn.value.args, "car").Some?
      && |Search(inst.spawn.value.args, "car").value| > 0
    ensures r.Done? ==> r == Done([SpawnChange(env, inst, Search(inst.spawn.value.args, "car").value, darcID)], cin)
    ensures !r.Panicked?
  {
    if inst.spawn.value.contractID != ContractCarID then Failed("can only spawn car instances")
    else
      var c := Search(inst.spawn.value.args, "car");
      if c.None? || |c.value| == 0 then Failed("need a car argument")
      else Done([SpawnChange(env, inst, c.value, darcID)], cin)
  }

  /** `ContractCar` of the byzcoin package. */
  function ContractCar(env: CarEnv, t: Trie, inst: Instruction, cin: seq<Coin>): (r: ContractResult)
    ensures !env.verifyDarc(t, inst) || inst.instanceID !in t ==> r.Failed?
    ensures r.Done? ==> r.cout == cin && |r.scs| == 1
    ensures r.Panicked? <==>
      env.verifyDarc(t, inst) && inst.instanceID in t && GetType(inst) in {DeleteType, InvalidInstrType}
    ensures env.verifyDarc(t, inst) && inst.instanceID in t && GetType(inst) == SpawnType ==>
      r == SpawnUnchecked(env, inst, t[inst.instanceID].darcID, cin)
    ensures env.verifyDarc(t, inst) && inst.instanceID in t && GetType(inst) == InvokeType ==>
      r == InvokeCar(env, inst, t[inst.instanceID], cin)
  {
    if !env.verifyDarc(t, inst) then Failed("darc signature does not verify")
    else match GetValues(t, inst.instanceID)
      case Err(m) => Failed(m)
      case Ok(e) =>
        match GetType(inst)
        case SpawnType => SpawnUnchecked(env, inst, e.darcID, cin)
        case InvokeType => InvokeCar(env, inst, e, cin)
        case DeleteType => Panicked("should not get here")
        case InvalidInstrType => Panicked("should not get here")
  }

  /**
   * The two contracts agree except on a spawn whose "car" argument does not
   * decode: the checked contract refuses it, this one stores the bytes, and
   * every later "addReport" on that instance then fails to decode it.
   */
  lemma {:induction false} VariantsAgree(env: CarEnv, t: Trie, inst: Instruction, cin: seq<Coin>)
    ensures ContractCar(env, t, inst, cin) != CarContract.ContractCar(env, t, inst, cin) <==>
      && env.verifyDarc(t, inst) && inst.instanceID in t && GetType(inst) == SpawnType
      && CarContract.ContractCar(env, t, inst, cin).Failed?
      && ContractCar(env, t, inst, cin).Done?
    ensures ContractCar(env, t, inst, cin) != CarContract.ContractCar(env, t, inst, cin) ==>
      env.decodeCar(ContractCar(env, t, inst, cin).scs[0].value).None?
  {
  }

  /** On a stored value that does not decode as a car, every invoke is refused. */
  lemma UndecodableCarRefusesReports(env: CarEnv, t: Trie, inst: Instruction, cin: seq<Coin>)
    requires inst.instanceID in t && env.decodeCar(t[inst.instanceID].value).None?
    requires GetType(inst) == InvokeType
    ensures ContractCar(env, t, inst, cin).Failed?
  {
  }
}
