/**
 * The car contract (car/contracts.go, data types in car/proto.go): a car
 * instance holds a protobuf-encoded `Car`; spawning creates one from a
 * "car" argument, invoking "addReport" appends reports to it.
 */
module CarContract {
  import opened Wrappers
  import opened Bytes
  import opened Tx
  import opened State
  import Service

  datatype Report = Report(date: string, garageID: string, writeInstanceID: seq<byte>)
  datatype Car = Car(vin: string, reports: seq<Report>)

  const ContractCarID: string := "car"

  /** The value of a freshly declared `Report` variable. */
  const ZeroReport: Report := Report("", "", [])

  /**
   * The collaborators of the contract: the hash, the darc signature check
   * of the instruction, and the protobuf codecs. Decoding a report takes
   * the variable it decodes into, because the source reuses one variable
   * for every report and decodes over it; it answers the new contents and
   * whether decoding succeeded.
   */
  datatype CarEnv = CarEnv(
    sha: Hasher,
    verifyDarc: (Trie, Instruction) -> bool,
    decodeCar: seq<byte> -> Option<Car>,
    encodeCar: Car -> Option<seq<byte>>,
    decodeReport: (Report, seq<byte>) -> (Report, bool))

  /** The values of the arguments named "report", in order. */
  function ReportValues(args: seq<Argument>): (vs: seq<seq<byte>>)
    ensures |vs| <= |args|
    decreases |args|
  {
    if |args| == 0 then []
    else if args[0].name == "report" then [args[0].value] + ReportValues(args[1..])
    else ReportValues(args[1..])
  }

  /** The reports obtained by decoding each value over the previous one, starting from `prev`. */
  function DecodeChain(env: CarEnv, prev: Report, vs: seq<seq<byte>>): (rs: seq<Report>)
    ensures |rs| == |vs|
    decreases |vs|
  {
    if |vs| == 0 then []
    else
      var r := env.decodeReport(prev, vs[0]).0;
      [r] + DecodeChain(env, r, vs[1..])
  }

  /** Whether the last of the chained decodes fails (false when there is none). */
  function LastDecodeFails(env: CarEnv, prev: Report, vs: seq<seq<byte>>): bool
    decreases |vs|
  {
    if |vs| == 0 then false
    else
      var (r, ok) := env.decodeReport(prev, vs[0]);
      if |vs| == 1 then !ok else LastDecodeFails(env, r, vs[1..])
  }

  /** The loop of `Car.Add`, with the reused report variable and the error so far. */
  function AddLoop(env: CarEnv, report: Report, err: Option<string>, reports: seq<Report>, args: seq<Argument>): (seq<Report>, Option<string>)
    decreases |args|
  {
    if |args| == 0 then (reports, err)
    else if args[0].name == "report" then
      var (r, ok) := env.decodeReport(report, args[0].value);
      AddLoop(env, r, if ok then None else Some("cannot decode report"), reports + [r], args[1..])
    else AddLoop(env, report, err, reports, args[1..])
  }

  /**
   * `Car.Add`: appends one report per argument named "report" and returns
   * the error of the last decode; a report that fails to decode is appended
   * all the same.
   */
  function Add(env: CarEnv, car: Car, args: seq<Argument>): (Car, Option<string>) {
    var (rs, err) := AddLoop(env, ZeroReport, None, car.reports, args);
    (Car(car.vin, rs), err)
  }

  lemma {:induction false} AddLoopSpec(env: CarEnv, report: Report, err: Option<string>, reports: seq<Report>, args: seq<Argument>)
    ensures var (rs, e) := AddLoop(env, report, err, reports, args);
      && rs == reports + DecodeChain(env, report, ReportValues(args))
      && (|ReportValues(args)| == 0 ==> e == err)
      && (|ReportValues(args)| > 0 ==> (e.Some? <==> LastDecodeFails(env, report, ReportValues(args))))
    decreases |args|
  {
    if |args| > 0 {
      if args[0].name == "report" {
        var (r, ok) := env.decodeReport(report, args[0].value);
        AddLoopSpec(env, r, if ok then None else Some("cannot decode report"), reports + [r], args[1..]);
        var vs := ReportValues(args);
        assert vs == [args[0].value] + ReportValues(args[1..]);
        assert vs[1..] == ReportValues(args[1..]);
        assert DecodeChain(env, report, vs) == [r] + DecodeChain(env, r, ReportValues(args[1..]));
      } else {
        AddLoopSpec(env, report, err, reports, args[1..]);
      }
    }
  }

  /**
   * `Car.Add` keeps the VIN and the existing reports and appends, in
   * argument order, one report per "report" argument and nothing for
   * other names; its error is that of the last decode.
   */
  lemma AddSpec(env: CarEnv, car: Car, args: seq<Argument>)
    ensures var (c, err) := Add(env, car, args);
      && c.vin == car.vin
      && c.reports == car.reports + DecodeChain(env, ZeroReport, ReportValues(args))
      && |c.reports| == |car.reports| + |ReportValues(args)|
      && (err.Some? <==> LastDecodeFails(env, ZeroReport, ReportValues(args)))
  {
    AddLoopSpec(env, ZeroReport, None, car.reports, args);
  }

  /** The state change of a successful spawn: the "car" argument stored under DeriveID(""). */
  function SpawnChange(env: CarEnv, inst: Instruction, carBuf: seq<byte>, darcID: seq<byte>): StateChange
    requires inst.spawn.Some?
  {
    NewStateChange(Create, DeriveID(env.sha, inst, ""), inst.spawn.value.contractID, carBuf, darcID)
  }

  /** The spawn branch of `ContractCar`, after the signature and instance checks. */
  function SpawnCar(env: CarEnv, inst: Instruction, darcID: seq<byte>, cin: seq<Coin>): (r: ContractResult)
    requires inst.spawn.Some?
    ensures r.Done? <==>
      && inst.spawn.value.contractID == ContractCarID
      && Search(inst.spawn.value.args, "car").Some?
      && |Search(inst.spawn.value.args, "car").value| > 0
      && env.decodeCar(Search(inst.spawn.value.args, "car").value).Some?
    ensures r.Done? ==> r == Done([SpawnChange(env, inst, Search(inst.spawn.value.args, "car").value, darcID)], cin)
    ensures !r.Panicked?
  {
    if inst.spawn.value.contractID != ContractCarID then Failed("can only spawn car instances")
    else
      var c := Search(inst.spawn.value.args, "car");
      if c.None? || |c.value| == 0 then Failed("need a car argument")
      else if env.decodeCar(c.value).None? then Failed("not a car")
      else Done([SpawnChange(env, inst, c.value, darcID)], cin)
  }

  /**
   * The invoke branch shared by both car contracts: decode the stored car,
   * add the reports, re-encode it and update the instance in place.
   */
  function InvokeCar(env: CarEnv, inst: Instruction, e: Entry, cin: seq<Coin>): (r: ContractResult)
    requires inst.invoke.Some?
    ensures r.Done? <==>
      && inst.invoke.value.command == "addReport"
      && env.decodeCar(e.value).Some?
      && Add(env, env.decodeCar(e.value).value, inst.invoke.value.args).1.None?
      && env.encodeCar(Add(env, env.decodeCar(e.value).value, inst.invoke.value.args).0).Some?
    ensures r.Done? ==>
      r == Done([StateChange(Update, inst.instanceID, ContractCarID,
                   env.encodeCar(Add(env, env.decodeCar(e.value).value, inst.invoke.value.args).0).value,
                   e.darcID)], cin)
    ensures !r.Panicked?
  {
    if inst.invoke.value.command != "addReport" then Failed("Value contract can only add Reports")
    else match env.decodeCar(e.value)
      case None => Failed("cannot decode car")
      case Some(car) =>
        var (car1, err) := Add(env, car, inst.invoke.value.args);
        if err.Some? then Failed(err.value)
        else match env.encodeCar(car1)
          case None => Failed("cannot encode car")
          case Some(buf) => Done([NewStateChange(Update, inst.instanceID, ContractCarID, buf, e.darcID)], cin)
  }

  /**
   * `ContractCar`. The darc signature and the instance's values are checked
   * first; spawn and invoke then go to their branches; coins pass through.
   * Delete and invalid instructions panic.
   */
  function ContractCar(env: CarEnv, t: Trie, inst: Instruction, cin: seq<Coin>): (r: ContractResult)
    ensures !env.verifyDarc(t, inst) || inst.instanceID !in t ==> r.Failed?
    ensures r.Done? ==> r.cout == cin && |r.scs| == 1
    ensures r.Panicked? <==>
      env.verifyDarc(t, inst) && inst.instanceID in t && GetType(inst) in {DeleteType, InvalidInstrType}
    ensures env.verifyDarc(t, inst) && inst.instanceID in t && GetType(inst) == SpawnType ==>
      r == SpawnCar(env, inst, t[inst.instanceID].darcID, cin)
    ensures env.verifyDarc(t, inst) && inst.instanceID in t && GetType(inst) == InvokeType ==>
      r == InvokeCar(env, inst, t[inst.instanceID], cin)
  {
    if !env.verifyDarc(t, inst) then Failed("darc signature does not verify")
    else match GetValues(t, inst.instanceID)
      case Err(m) => Failed(m)
      case Ok(e) =>
        match GetType(inst)
        case SpawnType => SpawnCar(env, inst, e.darcID, cin)
        case InvokeType => InvokeCar(env, inst, e, cin)
        case DeleteType => Panicked("should not get here")
        case InvalidInstrType => Panicked("should not get here")
  }

  /**
   * A car that was spawned holds exactly the bytes of its "car" argument,
   * which decode as a car, under the ID derived from the spawn.
   */
  lemma SpawnStoresArgument(env: CarEnv, t: Trie, inst: Instruction, cin: seq<Coin>)
    requires ContractCar(env, t, inst, cin).Done? && GetType(inst) == SpawnType
    ensures var sc := ContractCar(env, t, inst, cin).scs[0];
      && sc.action == Create
      && sc.instanceID == DeriveID(env.sha, inst, "")
      && sc.contractID == ContractCarID
      && Search(inst.spawn.value.args, "car") == Some(sc.value)
      && env.decodeCar(sc.value).Some?
      && sc.darcID == t[inst.instanceID].darcID
  {
  }

  /**
   * An accepted invoke rewrites the car in place: same instance, same darc,
   * and the stored car is the old one with the decoded reports appended.
   */
  lemma InvokeAppendsReports(env: CarEnv, t: Trie, inst: Instruction, cin: seq<Coin>)
    requires ContractCar(env, t, inst, cin).Done? && GetType(inst) == InvokeType
    ensures var sc := ContractCar(env, t, inst, cin).scs[0];
      var stored := env.decodeCar(t[inst.instanceID].value).value;
      var car := Add(env, stored, inst.invoke.value.args).0;
      && sc.action == Update && sc.instanceID == inst.instanceID
      && sc.darcID == t[inst.instanceID].darcID
      && Some(sc.value) == env.encodeCar(car)
      && car.vin == stored.vin
      && car.reports == stored.reports + DecodeChain(env, ZeroReport, ReportValues(inst.invoke.value.args))
  {
    AddSpec(env, env.decodeCar(t[inst.instanceID].value).value, inst.invoke.value.args);
  }

  /**
   * Registered as the "car" contract, a car instruction that panics (a
   * Delete) is turned into an error by the executor, so its transaction is
   * refused.
   */
  lemma DeleteRejected(env: CarEnv, l: Service.Ledger, t: Trie, inst: Instruction, cin: seq<Coin>)
    requires ContractCarID in l.contracts
    requires forall t', i, c :: l.contracts[ContractCarID](t', i, c) == ContractCar(env, t', i, c)
    requires inst.instanceID in t && t[inst.instanceID].contractID == ContractCarID
    requires env.verifyDarc(t, inst) && GetType(inst) == DeleteType
    ensures Service.ExecuteInstruction(l, t, cin, inst).Err?
    ensures !Service.RunInstructions(l, t, cin, [inst]).ok
  {
    assert l.contracts[ContractCarID](t, inst, cin).Panicked?;
  }
}
