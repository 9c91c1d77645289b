/**
 * The event log (eventlog/service.go): a ByzCoin contract that stores
 * events and indexes them in a backwards-linked chain of time buckets,
 * and the search over that chain.
 *
 * eventlog/struct.go is not part of this model. Its helpers are read as
 * follows: the eventlog instance's value is the 32-byte ID of the latest
 * bucket, all zeros while the log is empty; a bucket is looked up by its
 * ID in the trie and decoded; a bucket is the first (catch-all) one when
 * its `Prev` is empty.
 */
module EventLog {
  import opened Wrappers
  import opened Bytes
  import opened Tx
  import opened State
  import Service

  const ContractName: string := "eventlog"

  /** Search returns at most this many events. */
  const SearchMax: nat := 10000

  /** The age after which the head bucket is closed, as set when the service starts. */
  const DefaultBucketMaxAge: int := 5 * Service.Second

  /** An event may be this much older than the node's clock ... */
  const PastWindow: int := 30 * Service.Second
  /** ... and this much newer. */
  const FutureWindow: int := 5 * Service.Second

  /** An event; `when` is in nanoseconds since the epoch. */
  datatype Event = Event(when: int, topic: string, content: string)

  /** A time bucket: the events from `start` on, and the ID of the previous bucket. */
  datatype Bucket = Bucket(start: int, prev: seq<byte>, eventRefs: seq<seq<byte>>)

  predicate IsFirst(b: Bucket) {
    |b.prev| == 0
  }

  /** The collaborators: hash, darc check, protobuf codecs, and the head bucket's maximal age. */
  datatype LogEnv = LogEnv(
    sha: Hasher,
    verifyDarc: (Trie, Instruction) -> bool,
    decodeEvent: seq<byte> -> Option<Event>,
    decodeBucket: seq<byte> -> Option<Bucket>,
    encodeBucket: Bucket -> Option<seq<byte>>,
    bucketMaxAge: int)

  /** Encoding a bucket and decoding it gives the bucket back. */
  ghost predicate BucketCodec(env: LogEnv) {
    forall b :: env.encodeBucket(b).Some? ==> env.decodeBucket(env.encodeBucket(b).value) == Some(b)
  }

  function BucketByID(env: LogEnv, t: Trie, id: seq<byte>): (r: Result<Bucket>)
    ensures r.Ok? <==> id in t && env.decodeBucket(t[id].value).Some?
    ensures r.Ok? ==> Some(r.value) == env.decodeBucket(t[id].value)
  {
    if id !in t then Err("no such bucket")
    else match env.decodeBucket(t[id].value)
      case None => Err("cannot decode bucket")
      case Some(b) => Ok(b)
  }

  function EventByID(env: LogEnv, t: Trie, id: seq<byte>): (r: Result<Event>)
    ensures r.Ok? <==> id in t && env.decodeEvent(t[id].value).Some?
    ensures r.Ok? ==> Some(r.value) == env.decodeEvent(t[id].value)
  {
    if id !in t then Err("no such event")
    else match env.decodeEvent(t[id].value)
      case None => Err("invalid value")
      case Some(e) => Ok(e)
  }

  /** The latest bucket of the log held by `instance`, or None while the log is empty. */
  function LatestBucket(env: LogEnv, t: Trie, instance: seq<byte>): (r: Result<Option<(seq<byte>, Bucket)>>)
    ensures r == Ok(None) <==> instance in t && t[instance].value == Zeros(32)
    ensures r.Ok? && r.value.Some? ==>
      && instance in t && r.value.value.0 == t[instance].value
      && BucketByID(env, t, r.value.value.0) == Ok(r.value.value.1)
  {
    if instance !in t then Err("no such instance")
    else
      var id := t[instance].value;
      if |id| != 32 then Err("wrong length")
      else if id == Zeros(32) then Ok(None)
      else match BucketByID(env, t, id)
        case Err(m) => Err(m)
        case Ok(b) => Ok(Some((id, b)))
  }

  // ---------------------------------------------------------------------
  // Search
  // ---------------------------------------------------------------------

  datatype SearchRequest = SearchRequest(id: seq<byte>, instance: ID32, from: int, to: int, topic: string)
  datatype SearchResponse = SearchResponse(events: seq<Event>, truncated: bool)

  /** A bucket the walk kept, with its ID and the time its successor starts. */
  datatype Span = Span(id: seq<byte>, bucket: Bucket, until: int)

  /** Whether an event passes the filter of a search from `from` to `to`. */
  predicate Matches(from: int, to: int, topic: string, ev: Event) {
    from <= ev.when < to && (topic == "" || topic == ev.topic)
  }

  /**
   * The walk back along the bucket chain, newest first: it stops once the
   * current bucket ends before `from` or at the first bucket, and keeps the
   * buckets that start no later than `to`.
   */
  function Walk(env: LogEnv, t: Trie, from: int, to: int, id: seq<byte>, b: Bucket, until: int, fuel: nat): (r: Result<seq<Span>>)
    ensures r.Ok? ==> forall i :: 0 <= i < |r.value| ==> r.value[i].bucket.start <= to && from <= r.value[i].until
    ensures from > until ==> r == Ok([])
    ensures r.Ok? && from <= until && b.start <= to ==> |r.value| > 0 && r.value[0] == Span(id, b, until)
    decreases fuel
  {
    if from > until then Ok([])
    else
      var here := if to < b.start then [] else [Span(id, b, until)];
      if IsFirst(b) then Ok(here)
      else if fuel == 0 then Err("bucket chain does not end")
      else match BucketByID(env, t, b.prev)
        case Err(m) => Err(m)
        case Ok(b1) =>
          match Walk(env, t, from, to, b.prev, b1, b.start, fuel - 1)
          case Err(m) => Err(m)
          case Ok(rest) => Ok(here + rest)
  }

  /** The event references of the spans, oldest bucket first. */
  function OldestFirst(spans: seq<Span>): (refs: seq<seq<byte>>)
    decreases |spans|
  {
    if |spans| == 0 then [] else OldestFirst(spans[1..]) + spans[0].bucket.eventRefs
  }

  /**
   * The filter loop: resolves each reference in order, keeps the matching
   * events and stops, marking the answer truncated, once `SearchMax` are kept.
   */
  function Collect(env: LogEnv, t: Trie, from: int, to: int, topic: string, refs: seq<seq<byte>>, acc: seq<Event>): (r: Result<SearchResponse>)
    requires |acc| < SearchMax
    ensures r.Ok? ==> |r.value.events| <= SearchMax && (r.value.truncated <==> |r.value.events| == SearchMax)
    ensures r.Ok? ==> acc <= r.value.events
    decreases |refs|
  {
    if |refs| == 0 then Ok(SearchResponse(acc, false))
    else match EventByID(env, t, refs[0])
      case Err(m) => Err(m)
      case Ok(ev) =>
        if Matches(from, to, topic, ev) then
          var acc1 := acc + [ev];
          if |acc1| >= SearchMax then Ok(SearchResponse(acc1, true))
          else Collect(env, t, from, to, topic, refs[1..], acc1)
        else Collect(env, t, from, to, topic, refs[1..], acc)
  }

  /** The events the references point to, or None when one does not resolve. */
  function Resolve(env: LogEnv, t: Trie, refs: seq<seq<byte>>): (r: Option<seq<Event>>)
    ensures r.Some? ==> |r.value| == |refs|
    decreases |refs|
  {
    if |refs| == 0 then Some([])
    else match (EventByID(env, t, refs[0]), Resolve(env, t, refs[1..]))
      case (Ok(e), Some(es)) => Some([e] + es)
      case _ => None
  }

  /** The matching events, in order: the reference definition of the filter. */
  function Selected(from: int, to: int, topic: string, evs: seq<Event>): (r: seq<Event>)
    ensures forall i :: 0 <= i < |r| ==> Matches(from, to, topic, r[i])
    ensures |r| <= |evs|
    decreases |evs|
  {
    if |evs| == 0 then []
    else if Matches(from, to, topic, evs[0]) then [evs[0]] + Selected(from, to, topic, evs[1..])
    else Selected(from, to, topic, evs[1..])
  }

  function Min(a: int, b: int): int {
    if a <= b then a else b
  }

  /**
   * When every reference resolves, the filter loop returns the first
   * `SearchMax` matching events in order, and says it truncated exactly
   * when there were at least that many.
   */
  lemma {:induction false} CollectSelects(env: LogEnv, t: Trie, from: int, to: int, topic: string,
                                           refs: seq<seq<byte>>, acc: seq<Event>)
    requires |acc| < SearchMax
    requires Resolve(env, t, refs).Some?
    ensures var all := acc + Selected(from, to, topic, Resolve(env, t, refs).value);
      && Collect(env, t, from, to, topic, refs, acc).Ok?
      && Collect(env, t, from, to, topic, refs, acc).value.events == all[..Min(|all|, SearchMax)]
      && (Collect(env, t, from, to, topic, refs, acc).value.truncated <==> |all| >= SearchMax)
    decreases |refs|
  {
    if |refs| > 0 {
      var evs := Resolve(env, t, refs).value;
      var ev := EventByID(env, t, refs[0]).value;
      assert evs == [ev] + Resolve(env, t, refs[1..]).value;
      assert evs[1..] == Resolve(env, t, refs[1..]).value;
      var rest := Selected(from, to, topic, evs[1..]);
      if Matches(from, to, topic, ev) {
        assert acc + Selected(from, to, topic, evs) == (acc + [ev]) + rest;
        if |acc + [ev]| < SearchMax {
          CollectSelects(env, t, from, to, topic, refs[1..], acc + [ev]);
        } else {
          var all := (acc + [ev]) + rest;
          assert all[..SearchMax] == acc + [ev];
        }
      } else {
        CollectSelects(env, t, from, to, topic, refs[1..], acc);
      }
    } else {
      assert acc + [] == acc;
    }
  }

  /** Every event the filter loop returns passes the filter. */
  lemma {:induction false} CollectMatches(env: LogEnv, t: Trie, from: int, to: int, topic: string,
                                          refs: seq<seq<byte>>, acc: seq<Event>)
    requires |acc| < SearchMax
    requires forall i :: 0 <= i < |acc| ==> Matches(from, to, topic, acc[i])
    ensures var r := Collect(env, t, from, to, topic, refs, acc);
      r.Ok? ==> forall i :: 0 <= i < |r.value.events| ==> Matches(from, to, topic, r.value.events[i])
    decreases |refs|
  {
    if |refs| > 0 {
      match EventByID(env, t, refs[0])
      case Err(_) =>
      case Ok(ev) =>
        if Matches(from, to, topic, ev) {
          if |acc + [ev]| < SearchMax {
            CollectMatches(env, t, from, to, topic, refs[1..], acc + [ev]);
          }
        } else {
          CollectMatches(env, t, from, to, topic, refs[1..], acc);
        }
    }
  }

  /** The end of the search range: `to`, or the node's clock when `to` is 0. */
  function EffectiveTo(req: SearchRequest, now: int): (to: int)
    ensures req.to != 0 ==> to == req.to
    ensures req.to == 0 ==> to == now
  {
    if req.to == 0 then now else req.to
  }

  /**
   * `Service.Search` over the trie of the chain `req.id`, at clock `now`.
   * The walk's fuel, one more than the trie's size, exceeds the length of
   * any chain that does not revisit a bucket.
   */
  function Search(env: LogEnv, t: Trie, req: SearchRequest, now: int): (r: Result<SearchResponse>)
    ensures |req.id| == 0 ==> r.Err?
    ensures |req.id| > 0 && LatestBucket(env, t, req.instance) == Ok(None) ==> r == Ok(SearchResponse([], false))
    ensures |req.id| > 0 && LatestBucket(env, t, req.instance).Ok? && req.from > now ==> r == Ok(SearchResponse([], false))
    ensures r.Ok? ==> |r.value.events| <= SearchMax && (r.value.truncated <==> |r.value.events| == SearchMax)
  {
    if |req.id| == 0 then Err("skipchain ID required")
    else
      var to := EffectiveTo(req, now);
      match LatestBucket(env, t, req.instance)
      case Err(m) => Err(m)
      case Ok(None) => Ok(SearchResponse([], false))
      case Ok(Some((id, b))) =>
        match Walk(env, t, req.from, to, id, b, now, |t| + 1)
        case Err(m) => Err(m)
        case Ok(spans) => Collect(env, t, req.from, to, req.topic, OldestFirst(spans), [])
  }

  /**
   * Every event a search returns lies in [from, to) — `to` defaulting to the
   * clock — and has the requested topic when one is given.
   */
  lemma SearchMatches(env: LogEnv, t: Trie, req: SearchRequest, now: int)
    requires Search(env, t, req, now).Ok?
    ensures var r := Search(env, t, req, now).value;
      forall i :: 0 <= i < |r.events| ==>
        && req.from <= r.events[i].when < EffectiveTo(req, now)
        && (req.topic == "" || r.events[i].topic == req.topic)
  {
    var to := EffectiveTo(req, now);
    match LatestBucket(env, t, req.instance)
    case Ok(None) =>
    case Ok(Some((id, b))) =>
      match Walk(env, t, req.from, to, id, b, now, |t| + 1)
      case Err(_) =>
      case Ok(spans) =>
        CollectMatches(env, t, req.from, to, req.topic, OldestFirst(spans), []);
  }

  /**
   * When the walk succeeds and every event it reaches resolves, the search
   * returns the first `SearchMax` matching events of the kept buckets,
   * oldest bucket first.
   */
  lemma SearchSelects(env: LogEnv, t: Trie, req: SearchRequest, now: int, id: seq<byte>, b: Bucket, spans: seq<Span>)
    requires |req.id| > 0
    requires LatestBucket(env, t, req.instance) == Ok(Some((id, b)))
    requires Walk(env, t, req.from, EffectiveTo(req, now), id, b, now, |t| + 1) == Ok(spans)
    requires Resolve(env, t, OldestFirst(spans)).Some?
    ensures var all := Selected(req.from, EffectiveTo(req, now), req.topic, Resolve(env, t, OldestFirst(spans)).value);
      Search(env, t, req, now) == Ok(SearchResponse(all[..Min(|all|, SearchMax)], |all| >= SearchMax))
  {
    CollectSelects(env, t, req.from, EffectiveTo(req, now), req.topic, OldestFirst(spans), []);
    assert [] + Selected(req.from, EffectiveTo(req, now), req.topic, Resolve(env, t, OldestFirst(spans)).value)
        == Selected(req.from, EffectiveTo(req, now), req.topic, Resolve(env, t, OldestFirst(spans)).value);
  }

  // ---------------------------------------------------------------------
  // The contract
  // ---------------------------------------------------------------------

  /** `decodeAndCheckEvent`: the event must decode and lie within [now − 30 s, now + 5 s]. */
  function DecodeAndCheckEvent(env: LogEnv, buf: seq<byte>, now: int): (r: Result<Event>)
    ensures r.Ok? <==>
      env.decodeEvent(buf).Some? && now - PastWindow <= env.decodeEvent(buf).value.when <= now + FutureWindow
    ensures r.Ok? ==> Some(r.value) == env.decodeEvent(buf)
  {
    match env.decodeEvent(buf)
    case None => Err("cannot decode event")
    case Some(ev) =>
      if ev.when < now - PastWindow then Err("event timestamp too long ago")
      else if ev.when > now + FutureWindow then Err("event timestamp is too far in the future")
      else Ok(ev)
  }

  /**
   * The walk of `invoke` back from the head to the bucket the event goes
   * in: the first one that starts no later than the event, or the first
   * bucket of the chain. The flag says whether that is still the head.
   */
  function FindBucket(env: LogEnv, t: Trie, when: int, id: seq<byte>, b: Bucket, isHead: bool, fuel: nat)
    : (r: Result<(seq<byte>, Bucket, bool)>)
    ensures r.Ok? ==> IsFirst(r.value.1) || r.value.1.start <= when
    ensures IsFirst(b) || b.start <= when ==> r == Ok((id, b, isHead))
    ensures r.Ok? && r.value.2 ==> isHead && r.value == (id, b, isHead)
    ensures r.Ok? && r.value.0 !in t ==> r.value == (id, b, isHead)
    decreases fuel
  {
    if IsFirst(b) || b.start <= when then Ok((id, b, isHead))
    else if fuel == 0 then Err("bucket chain does not end")
    else match BucketByID(env, t, b.prev)
      case Err(m) => Err(m)
      case Ok(b1) => FindBucket(env, t, when, b.prev, b1, false, fuel - 1)
  }

  /** The catch-all bucket that goes before the first real one. */
  const CatchAll: Bucket := Bucket(0, [], [])

  /**
   * A new head bucket holding the event, linked to `prevID`, followed by
   * the update of the instance's pointer to it.
   */
  function NewHead(env: LogEnv, inst: Instruction, ev: Event, eventID: ID32, prevID: seq<byte>, darcID: seq<byte>)
    : (r: Option<seq<StateChange>>)
    ensures r.Some? <==> env.encodeBucket(Bucket(ev.when, prevID, [eventID])).Some?
    ensures r.Some? ==> r.value == [
      StateChange(Create, DeriveID(env.sha, inst, "bucket"), ContractName,
                  env.encodeBucket(Bucket(ev.when, prevID, [eventID])).value, darcID),
      StateChange(Update, inst.instanceID, ContractName, DeriveID(env.sha, inst, "bucket"), darcID)]
  {
    var newBid := DeriveID(env.sha, inst, "bucket");
    match env.encodeBucket(Bucket(ev.when, prevID, [eventID]))
    case None => None
    case Some(buf) => Some([NewStateChange(Create, newBid, ContractName, buf, darcID),
                            NewStateChange(Update, inst.instanceID, ContractName, newBid, darcID)])
  }

  /** Where the event goes once it is accepted and its Create is emitted. */
  function Index(env: LogEnv, t: Trie, inst: Instruction, ev: Event, eventID: ID32, darcID: seq<byte>)
    : (r: Result<seq<StateChange>>)
  {
    match LatestBucket(env, t, inst.instanceID)
    case Err(m) => Err(m)
    case Ok(None) =>
      var catchID := DeriveID(env.sha, inst, "bucket-catch-all");
      (match env.encodeBucket(CatchAll)
       case None => Err("cannot encode bucket")
       case Some(buf) =>
         match NewHead(env, inst, ev, eventID, catchID, darcID)
         case None => Err("cannot encode bucket")
         case Some(scs) => Ok([NewStateChange(Create, catchID, ContractName, buf, darcID)] + scs))
    case Ok(Some((hid, head))) =>
      match FindBucket(env, t, ev.when, hid, head, true, |t| + 1)
      case Err(m) => Err(m)
      case Ok((bid, b, isHead)) =>
        if isHead && ev.when - b.start > env.bucketMaxAge then
          match NewHead(env, inst, ev, eventID, bid, darcID)
          case None => Err("cannot encode bucket")
          case Some(scs) => Ok(scs)
        else
          match env.encodeBucket(b.(eventRefs := b.eventRefs + [eventID]))
          case None => Err("cannot encode bucket")
          case Some(buf) => Ok([StateChange(Update, bid, ContractName, buf, [])])
  }

  /**
   * The three ways an event is indexed: the first event of a log brings a
   * catch-all bucket, a new head linked to it and the pointer update; an
   * event for a head older than the maximal age opens a new head linked to
   * the old one; otherwise the event's ID is appended to the bucket found
   * by the walk, which keeps its ID.
   */
  lemma IndexShapes(env: LogEnv, t: Trie, inst: Instruction, ev: Event, eventID: ID32, darcID: seq<byte>)
    requires Index(env, t, inst, ev, eventID, darcID).Ok?
    ensures var scs := Index(env, t, inst, ev, eventID, darcID).value;
      var catchID := DeriveID(env.sha, inst, "bucket-catch-all");
      LatestBucket(env, t, inst.instanceID) == Ok(None) ==>
        && env.encodeBucket(CatchAll).Some?
        && scs == [StateChange(Create, catchID, ContractName, env.encodeBucket(CatchAll).value, darcID)]
                  + NewHead(env, inst, ev, eventID, catchID, darcID).value
    ensures var scs := Index(env, t, inst, ev, eventID, darcID).value;
      forall hid, head | LatestBucket(env, t, inst.instanceID) == Ok(Some((hid, head)))
                         && (IsFirst(head) || head.start <= ev.when) ::
        if ev.when - head.start > env.bucketMaxAge then scs == NewHead(env, inst, ev, eventID, hid, darcID).value
        else scs == [StateChange(Update, hid, ContractName,
                                 env.encodeBucket(head.(eventRefs := head.eventRefs + [eventID])).value, [])]
    ensures var scs := Index(env, t, inst, ev, eventID, darcID).value;
      forall hid, head | LatestBucket(env, t, inst.instanceID) == Ok(Some((hid, head)))
                         && !IsFirst(head) && head.start > ev.when ::
        var found := FindBucket(env, t, ev.when, hid, head, true, |t| + 1).value;
        && !found.2
        && scs == [StateChange(Update, found.0, ContractName,
                               env.encodeBucket(found.1.(eventRefs := found.1.eventRefs + [eventID])).value, [])]
  {
  }

  /**
   * Once a new head's changes are stored, the log's latest bucket is that
   * head, holding just the event and linked to `prevID`; every other key
   * the trie held before keeps its entry, so the chain behind it is intact.
   */
  lemma NewHeadBecomesLatest(env: LogEnv, t: Trie, inst: Instruction, ev: Event, eventID: ID32,
                             prevID: seq<byte>, darcID: seq<byte>, t2: Trie)
    requires BucketCodec(env)
    requires inst.instanceID in t
    requires DeriveID(env.sha, inst, "bucket") != Zeros(32)
    requires NewHead(env, inst, ev, eventID, prevID, darcID).Some?
    requires StoreAll(t, NewHead(env, inst, ev, eventID, prevID, darcID).value) == Ok(t2)
    ensures LatestBucket(env, t2, inst.instanceID)
         == Ok(Some((DeriveID(env.sha, inst, "bucket"), Bucket(ev.when, prevID, [eventID]))))
    ensures forall k | k in t && k != inst.instanceID :: k in t2 && t2[k] == t[k]
  {
    var scs := NewHead(env, inst, ev, eventID, prevID, darcID).value;
    var bid := DeriveID(env.sha, inst, "bucket");
    var head := Bucket(ev.when, prevID, [eventID]);
    assert StoreAll(t, scs) == (match Store(t, scs[0]) case Ok(u) => StoreAll(u, scs[1..]) case Err(m) => Err(m));
    var u0 := Store(t, scs[0]).value;
    assert StoreAll(u0, scs[1..]) == (match Store(u0, scs[1]) case Ok(u) => StoreAll(u, []) case Err(m) => Err(m));
    assert t2 == Store(u0, scs[1]).value;
    assert bid != inst.instanceID;
    assert t2[bid].value == env.encodeBucket(head).value;
    assert BucketByID(env, t2, bid) == Ok(head);
  }

  /** Indexing an event only creates buckets and updates keys the trie already holds. */
  lemma IndexAddsOrUpdates(env: LogEnv, t: Trie, inst: Instruction, ev: Event, eventID: ID32, darcID: seq<byte>)
    requires inst.instanceID in t
    requires Index(env, t, inst, ev, eventID, darcID).Ok?
    ensures AddsOrUpdates(t, Index(env, t, inst, ev, eventID, darcID).value)
  {
    IndexShapes(env, t, inst, ev, eventID, darcID);
  }

  /**
   * `invoke` followed by `getEventByID`: once an accepted invoke's changes
   * are stored, the event is found under the instruction's derived ID.
   */
  lemma LoggedEventIsStored(env: LogEnv, t: Trie, inst: Instruction, cin: seq<Coin>, now: int, t2: Trie)
    requires inst.invoke.Some? && InvokeLog(env, t, inst, cin, now).Done?
    requires StoreAll(t, InvokeLog(env, t, inst, cin, now).scs) == Ok(t2)
    ensures env.decodeEvent(Tx.Search(inst.invoke.value.args, "event").value).Some?
    ensures EventByID(env, t2, DeriveID(env.sha, inst, ""))
         == Ok(env.decodeEvent(Tx.Search(inst.invoke.value.args, "event").value).value)
  {
    var buf := Tx.Search(inst.invoke.value.args, "event").value;
    var ev := DecodeAndCheckEvent(env, buf, now).value;
    var eventID := DeriveID(env.sha, inst, "");
    var darcID := t[inst.instanceID].darcID;
    var scs := InvokeLog(env, t, inst, cin, now).scs;
    var idx := Index(env, t, inst, ev, eventID, darcID).value;
    assert scs == [scs[0]] + idx;
    assert scs[1..] == idx;
    assert StoreAll(t, scs) == (match Store(t, scs[0]) case Ok(u) => StoreAll(u, scs[1..]) case Err(m) => Err(m));
    var u := Store(t, scs[0]).value;
    IndexAddsOrUpdates(env, t, inst, ev, eventID, darcID);
    StoreAllKeeps(t, u, eventID, idx, t2);
  }

  /**
   * `invoke`: adds one event. The instance must be an event log and the
   * instruction must carry an "event" argument that passes the clock
   * check; the event is created under DeriveID("") and then indexed.
   */
  function InvokeLog(env: LogEnv, t: Trie, inst: Instruction, cin: seq<Coin>, now: int): (r: ContractResult)
    requires inst.invoke.Some?
    ensures r.Done? <==>
      && inst.instanceID in t && t[inst.instanceID].contractID == ContractName
      && Tx.Search(inst.invoke.value.args, "event").Some?
      && DecodeAndCheckEvent(env, Tx.Search(inst.invoke.value.args, "event").value, now).Ok?
      && Index(env, t, inst, DecodeAndCheckEvent(env, Tx.Search(inst.invoke.value.args, "event").value, now).value,
               DeriveID(env.sha, inst, ""), t[inst.instanceID].darcID).Ok?
    ensures r.Done? ==>
      && r.cout == cin
      && r.scs == [StateChange(Create, DeriveID(env.sha, inst, ""), ContractName,
                               Tx.Search(inst.invoke.value.args, "event").value, t[inst.instanceID].darcID)]
                  + Index(env, t, inst, DecodeAndCheckEvent(env, Tx.Search(inst.invoke.value.args, "event").value, now).value,
                          DeriveID(env.sha, inst, ""), t[inst.instanceID].darcID).value
  {
    match GetValues(t, inst.instanceID)
    case Err(m) => Failed(m)
    case Ok(e) =>
      if e.contractID != ContractName then Failed("expected contract ID to be eventlog")
      else match Tx.Search(inst.invoke.value.args, "event")
        case None => Failed("expected a named argument of \"event\"")
        case Some(buf) =>
          match DecodeAndCheckEvent(env, buf, now)
          case Err(m) => Failed(m)
          case Ok(ev) =>
            var eventID := DeriveID(env.sha, inst, "");
            var created := NewStateChange(Create, eventID, e.contractID, buf, e.darcID);
            match Index(env, t, inst, ev, eventID, e.darcID)
            case Err(m) => Failed(m)
            case Ok(scs) => Done([created] + scs, cin)
  }

  /**
   * `spawn`: a new event log under DeriveID(""), holding the all-zero
   * pointer of an empty log. The coins are not passed on.
   */
  function SpawnLog(env: LogEnv, t: Trie, inst: Instruction): (r: ContractResult)
    requires inst.spawn.Some?
    ensures r.Done? <==> inst.instanceID in t && inst.spawn.value.contractID == ContractName
    ensures r.Done? ==> r == Done([StateChange(Create, DeriveID(env.sha, inst, ""), ContractName, Zeros(32),
                                               t[inst.instanceID].darcID)], [])
  {
    match GetValues(t, inst.instanceID)
    case Err(m) => Failed(m)
    case Ok(e) =>
      var cid := inst.spawn.value.contractID;
      if cid != ContractName then Failed("invalid contract ID: " + cid)
      else Done([NewStateChange(Create, DeriveID(env.sha, inst, ""), cid, Zeros(32), e.darcID)], [])
  }

  /** A freshly spawned event log is empty: a search in it finds nothing. */
  lemma SpawnedLogIsEmpty(env: LogEnv, t: Trie, inst: Instruction, t2: Trie, req: SearchRequest, now: int)
    requires inst.spawn.Some? && SpawnLog(env, t, inst).Done?
    requires StoreAll(t, SpawnLog(env, t, inst).scs) == Ok(t2)
    requires req.instance == DeriveID(env.sha, inst, "") && |req.id| > 0
    ensures LatestBucket(env, t2, req.instance) == Ok(None)
    ensures Search(env, t2, req, now) == Ok(SearchResponse([], false))
  {
    var sc := SpawnLog(env, t, inst).scs[0];
    assert StoreAll(t, [sc]) == (match Store(t, sc) case Ok(t1) => StoreAll(t1, []) case Err(m) => Err(m));
  }

  /** Storing three Creates and then an Update of an older key leaves each written entry in place. */
  lemma StoreCreatesThenUpdate(t: Trie, a: StateChange, b: StateChange, c: StateChange, d: StateChange, t2: Trie)
    requires a.action == Create && b.action == Create && c.action == Create
    requires d.action == Update && d.instanceID in t
    requires StoreAll(t, [a, b, c, d]) == Ok(t2)
    ensures d.instanceID in t2 && t2[d.instanceID] == EntryOf(d)
    ensures c.instanceID in t2 && t2[c.instanceID] == EntryOf(c)
    ensures b.instanceID in t2 && t2[b.instanceID] == EntryOf(b)
    ensures a.instanceID in t2 && t2[a.instanceID] == EntryOf(a)
  {
    assert StoreAll(t, [a, b, c, d]) == (match Store(t, a) case Ok(u) => StoreAll(u, [b, c, d]) case Err(m) => Err(m));
    var u0 := Store(t, a).value;
    assert StoreAll(u0, [b, c, d]) == (match Store(u0, b) case Ok(u) => StoreAll(u, [c, d]) case Err(m) => Err(m));
    var u1 := Store(u0, b).value;
    assert StoreAll(u1, [c, d]) == (match Store(u1, c) case Ok(u) => StoreAll(u, [d]) case Err(m) => Err(m));
    var u2 := Store(u1, c).value;
    assert StoreAll(u2, [d]) == (match Store(u2, d) case Ok(u) => StoreAll(u, []) case Err(m) => Err(m));
  }

  /**
   * A log whose head bucket holds one event and links to the catch-all
   * bucket: a search over a range that holds the event returns just it.
   */
  lemma SearchSingleEvent(env: LogEnv, t: Trie, req: SearchRequest, later: int,
                          headID: seq<byte>, catchID: seq<byte>, eventID: seq<byte>, ev: Event)
    requires |req.id| > 0 && req.instance in t && t[req.instance].value == headID
    requires |headID| == 32 && headID != Zeros(32) && |catchID| > 0
    requires headID in t && env.decodeBucket(t[headID].value) == Some(Bucket(ev.when, catchID, [eventID]))
    requires catchID in t && env.decodeBucket(t[catchID].value) == Some(CatchAll)
    requires eventID in t && env.decodeEvent(t[eventID].value) == Some(ev)
    requires req.from <= ev.when < EffectiveTo(req, later) && req.from <= later
    requires req.topic == "" || req.topic == ev.topic
    ensures Search(env, t, req, later) == Ok(SearchResponse([ev], false))
  {
    var head := Bucket(ev.when, catchID, [eventID]);
    var to := EffectiveTo(req, later);
    assert LatestBucket(env, t, req.instance) == Ok(Some((headID, head)));
    var w := Walk(env, t, req.from, to, catchID, CatchAll, ev.when, |t|);
    assert w == Ok(if to < 0 then [] else [Span(catchID, CatchAll, ev.when)]);
    var spans := [Span(headID, head, later)] + w.value;
    assert Walk(env, t, req.from, to, headID, head, later, |t| + 1) == Ok(spans);
    assert OldestFirst(spans) == OldestFirst(w.value) + [eventID];
    assert OldestFirst(w.value) == [] by {
      if to >= 0 {
        assert OldestFirst(w.value) == OldestFirst([]) + CatchAll.eventRefs;
      }
    }
    assert Collect(env, t, req.from, to, req.topic, [eventID], []) == Ok(SearchResponse([ev], false)) by {
      assert EventByID(env, t, eventID) == Ok(ev);
      assert Matches(req.from, to, req.topic, ev);
      assert [] + [ev] == [ev];
      assert [eventID][1..] == [];
      assert Collect(env, t, req.from, to, req.topic, [], [ev]) == Ok(SearchResponse([ev], false));
    }
    assert OldestFirst(spans) == [eventID];
  }

  /**
   * Logging the first event of an empty log and storing the changes makes
   * a search over a range that holds the event return exactly that event.
   * The bucket's ID must not be the all-zero pointer of an empty log.
   */
  lemma FirstEventIsFound(env: LogEnv, t: Trie, inst: Instruction, cin: seq<Coin>, now: int,
                          t2: Trie, req: SearchRequest, later: int)
    requires BucketCodec(env)
    requires inst.invoke.Some? && InvokeLog(env, t, inst, cin, now).Done?
    requires LatestBucket(env, t, inst.instanceID) == Ok(None)
    requires DeriveID(env.sha, inst, "bucket") != Zeros(32)
    requires StoreAll(t, InvokeLog(env, t, inst, cin, now).scs) == Ok(t2)
    requires |req.id| > 0 && req.instance == inst.instanceID
    ensures var ev := env.decodeEvent(Tx.Search(inst.invoke.value.args, "event").value).value;
      req.from <= ev.when < EffectiveTo(req, later) && req.from <= later && (req.topic == "" || req.topic == ev.topic) ==>
        Search(env, t2, req, later) == Ok(SearchResponse([ev], false))
  {
    var buf := Tx.Search(inst.invoke.value.args, "event").value;
    var ev := env.decodeEvent(buf).value;
    var darcID := t[inst.instanceID].darcID;
    var eventID := DeriveID(env.sha, inst, "");
    var catchID := DeriveID(env.sha, inst, "bucket-catch-all");
    var newBid := DeriveID(env.sha, inst, "bucket");
    var head := Bucket(ev.when, catchID, [eventID]);
    var s0 := StateChange(Create, eventID, ContractName, buf, darcID);
    var s1 := StateChange(Create, catchID, ContractName, env.encodeBucket(CatchAll).value, darcID);
    var s2 := StateChange(Create, newBid, ContractName, env.encodeBucket(head).value, darcID);
    var s3 := StateChange(Update, inst.instanceID, ContractName, newBid, darcID);
    IndexShapes(env, t, inst, ev, eventID, darcID);
    assert InvokeLog(env, t, inst, cin, now).scs == [s0, s1, s2, s3];
    StoreCreatesThenUpdate(t, s0, s1, s2, s3, t2);
    if req.from <= ev.when < EffectiveTo(req, later) && req.from <= later && (req.topic == "" || req.topic == ev.topic) {
      SearchSingleEvent(env, t2, req, later, newBid, catchID, eventID, ev);
    }
  }

  /** `contractFunction`: the darc check, then spawn or invoke; any other type is refused. */
  function ContractFunction(env: LogEnv, now: int, t: Trie, inst: Instruction, cin: seq<Coin>): (r: ContractResult)
    ensures !r.Panicked?
    ensures !env.verifyDarc(t, inst) || GetType(inst) in {DeleteType, InvalidInstrType} ==> r.Failed?
    ensures env.verifyDarc(t, inst) && GetType(inst) == InvokeType ==> r == InvokeLog(env, t, inst, cin, now)
    ensures env.verifyDarc(t, inst) && GetType(inst) == SpawnType ==> r == SpawnLog(env, t, inst)
  {
    if !env.verifyDarc(t, inst) then Failed("darc signature does not verify")
    else match GetType(inst)
      case InvokeType => InvokeLog(env, t, inst, cin, now)
      case SpawnType => SpawnLog(env, t, inst)
      case DeleteType => Failed("invalid type")
      case InvalidInstrType => Failed("invalid type")
  }
}
