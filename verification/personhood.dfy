/**
 * The personhood service's questionnaire and message ledger
 * (personhood/service.go): questionnaires pay a reward to every account that
 * answers, messages pay a reward to every reader, and both are listed richest
 * first. Only the service's in-memory storage is modelled; the ByzCoin
 * transfer that `ReadMessage` sends after updating the storage is not.
 */
module Personhood {
  import opened Wrappers
  import opened Bytes

  /** Go's `uint64`: balances, rewards and top-up amounts. */
  const U64Limit: int := 0x1_0000_0000_0000_0000
  type u64 = x: int | 0 <= x < U64Limit

  /** Unsigned 64-bit addition as Go performs it: wrapping modulo 2^64. */
  function AddU64(a: u64, b: u64): (r: u64)
    ensures a + b < U64Limit ==> r == a + b
    ensures a + b >= U64Limit ==> r == a + b - U64Limit
  {
    (a + b) % U64Limit
  }

  /** An account is the instance ID of a coin account on ByzCoin. */
  type Account = seq<byte>

  datatype Questionnaire = Questionnaire(
    id: string,
    title: string,
    questions: seq<string>,
    replies: int,    // how many questions one answer may pick
    balance: u64,
    reward: u64)

  datatype Message = Message(
    id: string,
    subject: string,
    date: u64,
    text: string,
    author: seq<byte>,
    balance: u64,
    reward: u64)

  /**
   * The service storage. Go keeps pointers in its maps and updates the
   * pointed-to records in place; here every update writes a new record back
   * under the key it was read from. A missing entry of `replies` or `read`
   * stands for Go's nil record pointer.
   */
  datatype Storage = Storage(
    questionnaires: map<string, Questionnaire>,
    replies: map<string, seq<Account>>,
    messages: map<string, Message>,
    read: map<string, seq<Account>>,
    parties: set<string>)

  const EmptyStorage := Storage(map[], map[], map[], map[], {})

  /**
   * What every storage the service builds satisfies: records sit under their
   * own ID, and every message has a reader record.
   */
  predicate Valid(st: Storage) {
    && (forall k :: k in st.questionnaires ==> st.questionnaires[k].id == k)
    && (forall k :: k in st.messages ==> st.messages[k].id == k && k in st.read)
  }

  // ---------------------------------------------------------------------
  // Listing: sort by balance, page, cut at the first empty balance
  // ---------------------------------------------------------------------

  /** No entry has a larger balance than an entry before it. */
  predicate NonIncreasing<T>(bal: T -> u64, s: seq<T>) {
    forall i, j :: 0 <= i < j < |s| ==> bal(s[i]) >= bal(s[j])
  }

  /** Places `x` after every entry whose balance is at least its own. */
  function Insert<T>(bal: T -> u64, x: T, s: seq<T>): (r: seq<T>)
    ensures multiset(r) == multiset(s) + multiset{x}
  {
    if s == [] || bal(x) >= bal(s[0]) then
      [x] + s
    else
      assert s == [s[0]] + s[1..];
      [s[0]] + Insert(bal, x, s[1..])
  }

  /** Inserting into a list sorted richest first keeps it sorted. */
  lemma {:induction false} InsertSorted<T>(bal: T -> u64, x: T, s: seq<T>)
    requires NonIncreasing(bal, s)
    ensures NonIncreasing(bal, Insert(bal, x, s))
  {
    if s != [] && bal(x) < bal(s[0]) {
      var rest := Insert(bal, x, s[1..]);
      assert NonIncreasing(bal, s[1..]) by {
        forall i, j | 0 <= i < j < |s[1..]|
          ensures bal(s[1..][i]) >= bal(s[1..][j])
        {
          assert s[1..][i] == s[i + 1] && s[1..][j] == s[j + 1];
        }
      }
      InsertSorted(bal, x, s[1..]);
      forall i | 0 <= i < |rest| ensures bal(s[0]) >= bal(rest[i]) {
        assert rest[i] in multiset(rest);
        if rest[i] != x {
          assert rest[i] in multiset(s[1..]);
          var j :| 0 <= j < |s[1..]| && s[1..][j] == rest[i];
          assert s[1..][j] == s[j + 1];
        }
      }
      var r := [s[0]] + rest;
      forall i, j | 0 <= i < j < |r| ensures bal(r[i]) >= bal(r[j]) {
        if i > 0 {
          assert r[i] == rest[i - 1] && r[j] == rest[j - 1];
        } else {
          assert r[j] == rest[j - 1];
        }
      }
    }
  }

  /**
   * The balance order of `sort.Slice(..., Balance[i] > Balance[j])`. Go's
   * sort is not stable, so entries of equal balance may come out in any
   * order; this insertion sort fixes one of the orders Go may produce.
   */
  function SortByBalance<T>(bal: T -> u64, s: seq<T>): (r: seq<T>)
    ensures multiset(r) == multiset(s)
    ensures NonIncreasing(bal, r)
  {
    if s == [] then []
    else
      assert s == [s[0]] + s[1..];
      var rest := SortByBalance(bal, s[1..]);
      InsertSorted(bal, s[0], rest);
      Insert(bal, s[0], rest)
  }

  /** The longest prefix of `s` in which every balance is positive. */
  function CutAtZero<T>(bal: T -> u64, s: seq<T>): (r: seq<T>)
    ensures r <= s
    ensures forall i :: 0 <= i < |r| ==> bal(r[i]) > 0
    ensures |r| < |s| ==> bal(s[|r|]) == 0
  {
    if s == [] || bal(s[0]) == 0 then []
    else [s[0]] + CutAtZero(bal, s[1..])
  }

  /** Reference definition: the entries of positive balance, in order. */
  function Positives<T>(bal: T -> u64, s: seq<T>): seq<T> {
    if s == [] then []
    else if bal(s[0]) > 0 then [s[0]] + Positives(bal, s[1..])
    else Positives(bal, s[1..])
  }

  /**
   * On a list sorted richest first, cutting at the first empty balance keeps
   * exactly the entries that still have a balance.
   */
  lemma {:induction false} CutOfSortedIsPositives<T>(bal: T -> u64, s: seq<T>)
    requires NonIncreasing(bal, s)
    ensures CutAtZero(bal, s) == Positives(bal, s)
  {
    if s == [] {
    } else if bal(s[0]) == 0 {
      PositivesOfZeros(bal, s);
    } else {
      assert NonIncreasing(bal, s[1..]) by {
        forall i, j | 0 <= i < j < |s[1..]|
          ensures bal(s[1..][i]) >= bal(s[1..][j])
        {
          assert s[1..][i] == s[i + 1] && s[1..][j] == s[j + 1];
        }
      }
      CutOfSortedIsPositives(bal, s[1..]);
    }
  }

  /** Behind a zero balance, a non-increasing list holds only zeros. */
  lemma {:induction false} PositivesOfZeros<T>(bal: T -> u64, s: seq<T>)
    requires NonIncreasing(bal, s)
    requires s != [] && bal(s[0]) == 0
    ensures Positives(bal, s) == []
  {
    if |s| > 1 {
      assert bal(s[1]) <= bal(s[0]);
      assert NonIncreasing(bal, s[1..]) by {
        forall i, j | 0 <= i < j < |s[1..]|
          ensures bal(s[1..][i]) >= bal(s[1..][j])
        {
          assert s[1..][i] == s[i + 1] && s[1..][j] == s[j + 1];
        }
      }
      PositivesOfZeros(bal, s[1..]);
    }
  }

  /** How often `x` occurs among the positive entries of `s`. */
  lemma {:induction false} PositivesCount<T>(bal: T -> u64, s: seq<T>, x: T)
    ensures multiset(Positives(bal, s))[x] == if bal(x) > 0 then multiset(s)[x] else 0
  {
    if s != [] {
      assert s == [s[0]] + s[1..];
      PositivesCount(bal, s[1..], x);
    }
  }

  /** Filtering by balance does not depend on the order of the entries. */
  lemma PositivesPermutation<T>(bal: T -> u64, s: seq<T>, t: seq<T>)
    requires multiset(s) == multiset(t)
    ensures multiset(Positives(bal, s)) == multiset(Positives(bal, t))
  {
    forall x
      ensures multiset(Positives(bal, s))[x] == multiset(Positives(bal, t))[x]
    {
      PositivesCount(bal, s, x);
      PositivesCount(bal, t, x);
      assert multiset(s)[x] == multiset(t)[x];
    }
    SameCounts(multiset(Positives(bal, s)), multiset(Positives(bal, t)));
  }

  lemma SameCounts<T>(a: multiset<T>, b: multiset<T>)
    requires forall x :: a[x] == b[x]
    ensures a == b
  {
  }

  /**
   * The paging of the two listing calls, on the sorted list: nothing when
   * `start` is past the end; otherwise entries from `start` on, at most
   * `number` of them, cut at the first empty balance. A negative `start` or
   * `number` makes Go's slice expression panic.
   */
  function Page<T>(bal: T -> u64, s: seq<T>, start: int, number: int): (r: Result<seq<T>>)
    ensures |s| < start ==> r == Ok([])
    ensures start <= |s| && (start < 0 || number < 0) ==> r.Err?
    ensures r.Ok? && 0 <= start <= |s| ==>
      && start + |r.value| <= |s|
      && r.value == s[start..start + |r.value|]
      && |r.value| <= number
      && (forall i :: 0 <= i < |r.value| ==> bal(r.value[i]) > 0)
      && (|r.value| < number && start + |r.value| < |s| ==> bal(s[start + |r.value|]) == 0)
  {
    if |s| < start then Ok([])
    else if start < 0 then Err("runtime error: slice bounds out of range")
    else
      var tail := s[start..];
      if |tail| > number then
        if number < 0 then Err("runtime error: slice bounds out of range")
        else Ok(CutAtZero(bal, tail[..number]))
      else Ok(CutAtZero(bal, tail))
  }

  /** `keys` visits every key of `m` exactly once, as Go's `range` does. */
  ghost predicate Enumerates<V>(keys: seq<string>, m: map<string, V>) {
    && (forall k :: k in m <==> k in keys)
    && (forall i, j :: 0 <= i < j < |keys| ==> keys[i] != keys[j])
  }

  /** The records of `m` in the order of `keys`. */
  function Lookup<V>(m: map<string, V>, keys: seq<string>): (r: seq<V>)
    requires forall k :: k in keys ==> k in m
    ensures |r| == |keys|
    ensures forall i :: 0 <= i < |keys| ==> r[i] == m[keys[i]]
  {
    if keys == [] then [] else [m[keys[0]]] + Lookup(m, keys[1..])
  }

  function QBalance(q: Questionnaire): u64 { q.balance }
  function MBalance(m: Message): u64 { m.balance }

  /**
   * The listing both `ListQuestionnaires` and `ListMessages` perform on
   * their map: the records richest first, paged by `start` and `number`,
   * without the ones whose balance is used up. `order` is the order in which
   * Go's map iteration visited the keys.
   */
  function ListByBalance<V(==)>(bal: V -> u64, m: map<string, V>, order: seq<string>,
                            start: int, number: int): (r: Result<seq<V>>)
    requires Enumerates(order, m)
    ensures |m| < start ==> r == Ok([])
    ensures start <= |m| && (start < 0 || number < 0) ==> r.Err?
    ensures r.Ok? ==>
      && NonIncreasing(bal, r.value)
      && |r.value| <= |m|
      && (0 <= start <= |m| ==> |r.value| <= number)
      && (forall i :: 0 <= i < |r.value| ==> bal(r.value[i]) > 0 && r.value[i] in m.Values)
    ensures 0 <= start && 0 <= number ==>
      r.Ok? && |r.value| == PageSize(|Positives(bal, Lookup(m, order))|, start, number)
  {
    var all := Lookup(m, order);
    EnumerationSize(order, m);
    var sorted := SortByBalance(bal, all);
    var r := Page(bal, sorted, start, number);
    PageStaysSorted(bal, sorted, start, number);
    SortedPageLength(bal, all, sorted, start, number);
    forall i | r.Ok? && 0 <= i < |r.value|
      ensures r.value[i] in m.Values
    {
      PageFromSource(bal, all, sorted, start, number, i);
      var j :| 0 <= j < |all| && all[j] == r.value[i];
      assert m[order[j]] == r.value[i];
    }
    r
  }

  /** `ListQuestionnaires`. */
  function ListQuestionnaires(st: Storage, order: seq<string>, start: int, number: int)
    : Result<seq<Questionnaire>>
    requires Enumerates(order, st.questionnaires)
  {
    ListByBalance(QBalance, st.questionnaires, order, start, number)
  }

  /**
   * A listing from the start that is long enough holds every record that
   * still pays a reward, each once.
   */
  lemma ListAll<V>(bal: V -> u64, m: map<string, V>, order: seq<string>, number: int)
    requires Enumerates(order, m)
    requires number >= |m|
    ensures ListByBalance(bal, m, order, 0, number).Ok?
    ensures multiset(ListByBalance(bal, m, order, 0, number).value)
         == multiset(Positives(bal, Lookup(m, order)))
  {
    var all := Lookup(m, order);
    EnumerationSize(order, m);
    var sorted := SortByBalance(bal, all);
    assert sorted[0..] == sorted;
    CutOfSortedIsPositives(bal, sorted);
    PositivesPermutation(bal, sorted, all);
  }

  /** Up to `number` entries of `ps` from `start` on; none from past the end. */
  function PageOf<T>(ps: seq<T>, start: nat, number: nat): (r: seq<T>)
    ensures |r| == PageSize(|ps|, start, number)
  {
    if start < |ps| then ps[start..start + PageSize(|ps|, start, number)] else []
  }

  /** On a sorted list, the positive entries are its prefix, and sorted. */
  lemma SortedPositivesPrefix<T>(bal: T -> u64, sorted: seq<T>)
    requires NonIncreasing(bal, sorted)
    ensures |Positives(bal, sorted)| <= |sorted|
    ensures Positives(bal, sorted) == sorted[..|Positives(bal, sorted)|]
    ensures NonIncreasing(bal, Positives(bal, sorted))
  {
    CutOfSortedIsPositives(bal, sorted);
    var ps := Positives(bal, sorted);
    assert ps == sorted[..|ps|];
    forall i, j | 0 <= i < j < |ps| ensures bal(ps[i]) >= bal(ps[j]) {
      assert ps[i] == sorted[i] && ps[j] == sorted[j];
    }
  }

  /**
   * On a sorted list, a valid page is the page of its positive entries,
   * which form a sorted prefix of it.
   */
  lemma SortedPageIsPageOf<T>(bal: T -> u64, sorted: seq<T>, start: nat, number: nat)
    requires NonIncreasing(bal, sorted)
    ensures NonIncreasing(bal, Positives(bal, sorted))
    ensures Page(bal, sorted, start, number) == Ok(PageOf(Positives(bal, sorted), start, number))
  {
    SortedPositivesPrefix(bal, sorted);
    PageOfSortedLength(bal, sorted, start, number);
    var ps := Positives(bal, sorted);
    var r := Page(bal, sorted, start, number).value;
    if start < |ps| {
      assert start + |r| <= |ps| <= |sorted|;
      assert r == sorted[start..start + |r|];
      assert r == ps[start..start + |r|];
    }
  }

  /**
   * Every valid page of the listing is the `start` page of one order of the
   * entries with a positive balance, richest first. Only the order of equal
   * balances is left open, as Go's unstable sort leaves it.
   */
  lemma ListByBalancePage<V>(bal: V -> u64, m: map<string, V>, order: seq<string>, start: nat, number: nat)
    requires Enumerates(order, m)
    ensures exists ps :: && multiset(ps) == multiset(Positives(bal, Lookup(m, order)))
                         && NonIncreasing(bal, ps)
                         && ListByBalance(bal, m, order, start, number) == Ok(PageOf(ps, start, number))
  {
    var all := Lookup(m, order);
    EnumerationSize(order, m);
    var sorted := SortByBalance(bal, all);
    SortedPageIsPageOf(bal, sorted, start, number);
    PositivesPermutation(bal, sorted, all);
    var ps := Positives(bal, sorted);
    assert ListByBalance(bal, m, order, start, number) == Ok(PageOf(ps, start, number));
  }

  /** The reply of `ListMessages`: four parallel lists, one entry per message. */
  datatype MessageList = MessageList(
    msgIDs: seq<string>,
    subjects: seq<string>,
    balances: seq<u64>,
    rewards: seq<u64>)

  function Summarise(ms: seq<Message>): (r: MessageList)
    ensures |r.msgIDs| == |r.subjects| == |r.balances| == |r.rewards| == |ms|
    ensures forall i :: 0 <= i < |ms| ==>
      && r.msgIDs[i] == ms[i].id && r.subjects[i] == ms[i].subject
      && r.balances[i] == ms[i].balance && r.rewards[i] == ms[i].reward
  {
    if ms == [] then MessageList([], [], [], [])
    else
      var rest := Summarise(ms[1..]);
      MessageList([ms[0].id] + rest.msgIDs, [ms[0].subject] + rest.subjects,
                  [ms[0].balance] + rest.balances, [ms[0].reward] + rest.rewards)
  }

  /**
   * `ListMessages`: the stored messages richest first, paged like the
   * questionnaires, reported as IDs, subjects, balances and rewards.
   */
  function ListMessages(st: Storage, order: seq<string>, start: int, number: int)
    : (r: Result<MessageList>)
    requires Enumerates(order, st.messages)
    ensures |st.messages| < start ==> r == Ok(MessageList([], [], [], []))
    ensures start <= |st.messages| && (start < 0 || number < 0) ==> r.Err?
    ensures r.Ok? ==>
      && |r.value.msgIDs| == |r.value.subjects| == |r.value.balances| == |r.value.rewards| <= |st.messages|
      && (0 <= start <= |st.messages| ==> |r.value.msgIDs| <= number)
      && (forall i :: 0 <= i < |r.value.balances| ==> r.value.balances[i] > 0)
      && (forall i, j :: 0 <= i < j < |r.value.balances| ==>
            r.value.balances[i] >= r.value.balances[j])
      && (forall i :: 0 <= i < |r.value.msgIDs| ==>
            Stored(st, r.value.msgIDs[i], r.value.subjects[i], r.value.balances[i], r.value.rewards[i]))
    ensures 0 <= start && 0 <= number ==>
      r.Ok? && |r.value.msgIDs| == PageSize(|Positives(MBalance, Lookup(st.messages, order))|, start, number)
  {
    match ListByBalance(MBalance, st.messages, order, start, number)
    case Err(e) => Err(e)
    case Ok(ms) =>
      SummaryOfStored(st, ms);
      Ok(Summarise(ms))
  }

  /** The summary of stored, positive messages in balance order: positive, sorted, and each row a stored message. */
  lemma SummaryOfStored(st: Storage, ms: seq<Message>)
    requires NonIncreasing(MBalance, ms)
    requires forall i :: 0 <= i < |ms| ==> MBalance(ms[i]) > 0 && ms[i] in st.messages.Values
    ensures var r := Summarise(ms);
      && (forall i :: 0 <= i < |r.balances| ==> r.balances[i] > 0)
      && (forall i, j :: 0 <= i < j < |r.balances| ==> r.balances[i] >= r.balances[j])
      && (forall i :: 0 <= i < |r.msgIDs| ==> Stored(st, r.msgIDs[i], r.subjects[i], r.balances[i], r.rewards[i]))
  {
    var r := Summarise(ms);
    forall i | 0 <= i < |ms| ensures r.balances[i] > 0 {
      assert r.balances[i] == ms[i].balance == MBalance(ms[i]);
    }
    forall i, j | 0 <= i < j < |ms| ensures r.balances[i] >= r.balances[j] {
      assert MBalance(ms[i]) >= MBalance(ms[j]);
    }
    forall i | 0 <= i < |ms| ensures Stored(st, r.msgIDs[i], r.subjects[i], r.balances[i], r.rewards[i]) {
      StoredMessage(st, ms[i]);
    }
  }

  /** A message of the map is stored with its own ID, subject, balance and reward. */
  lemma StoredMessage(st: Storage, m: Message)
    requires m in st.messages.Values
    ensures Stored(st, m.id, m.subject, m.balance, m.reward)
  {
    var k :| k in st.messages && st.messages[k] == m;
  }

  /**
   * A listing of messages from the start that is long enough summarises
   * every message that still pays a reward, each once, in some order.
   */
  lemma ListAllMessages(st: Storage, order: seq<string>, number: int)
    requires Enumerates(order, st.messages)
    requires number >= |st.messages|
    ensures exists ms :: multiset(ms) == multiset(Positives(MBalance, Lookup(st.messages, order)))
                         && ListMessages(st, order, 0, number) == Ok(Summarise(ms))
  {
    ListAll(MBalance, st.messages, order, number);
    var ms := ListByBalance(MBalance, st.messages, order, 0, number).value;
    assert ListMessages(st, order, 0, number) == Ok(Summarise(ms));
  }

  /**
   * Every valid page of messages summarises the `start` page of one order
   * of the messages with a positive balance, richest first.
   */
  lemma ListMessagesPage(st: Storage, order: seq<string>, start: nat, number: nat)
    requires Enumerates(order, st.messages)
    ensures exists ps :: && multiset(ps) == multiset(Positives(MBalance, Lookup(st.messages, order)))
                         && NonIncreasing(MBalance, ps)
                         && ListMessages(st, order, start, number) == Ok(Summarise(PageOf(ps, start, number)))
  {
    ListByBalancePage(MBalance, st.messages, order, start, number);
    var ps :| && multiset(ps) == multiset(Positives(MBalance, Lookup(st.messages, order)))
              && NonIncreasing(MBalance, ps)
              && ListByBalance(MBalance, st.messages, order, start, number) == Ok(PageOf(ps, start, number));
    assert ListMessages(st, order, start, number) == Ok(Summarise(PageOf(ps, start, number)));
  }

  /** Some stored message has this ID, subject, balance and reward. */
  ghost predicate Stored(st: Storage, id: string, subject: string, balance: u64, reward: u64) {
    exists k :: k in st.messages && st.messages[k].id == id && st.messages[k].subject == subject
                && st.messages[k].balance == balance && st.messages[k].reward == reward
  }

  lemma EnumerationSize<V>(keys: seq<string>, m: map<string, V>)
    requires Enumerates(keys, m)
    ensures |keys| == |m|
  {
    var ks := set i | 0 <= i < |keys| :: keys[i];
    assert ks == m.Keys;
    DistinctSize(keys);
  }

  lemma {:induction false} DistinctSize(keys: seq<string>)
    requires forall i, j :: 0 <= i < j < |keys| ==> keys[i] != keys[j]
    ensures |set i | 0 <= i < |keys| :: keys[i]| == |keys|
  {
    if keys != [] {
      var rest := keys[1..];
      DistinctSize(rest);
      var a := set i | 0 <= i < |keys| :: keys[i];
      var b := set i | 0 <= i < |rest| :: rest[i];
      assert a == {keys[0]} + b by {
        forall x | x in a ensures x in {keys[0]} + b {
          var i :| 0 <= i < |keys| && keys[i] == x;
          if i > 0 { assert rest[i - 1] == x; }
        }
      }
      assert keys[0] !in b by {
        forall i | 0 <= i < |rest| ensures rest[i] != keys[0] {
          assert rest[i] == keys[i + 1];
        }
      }
    }
  }

  lemma PageStaysSorted<T>(bal: T -> u64, s: seq<T>, start: int, number: int)
    requires NonIncreasing(bal, s)
    ensures Page(bal, s, start, number).Ok? ==> NonIncreasing(bal, Page(bal, s, start, number).value)
    ensures Page(bal, s, start, number).Ok? ==> |Page(bal, s, start, number).value| <= |s|
  {
    var r := Page(bal, s, start, number);
    if r.Ok? && 0 <= start <= |s| {
      var v := r.value;
      forall i, j | 0 <= i < j < |v| ensures bal(v[i]) >= bal(v[j]) {
        assert v[i] == s[start + i] && v[j] == s[start + j];
      }
    }
  }

  /**
   * How many entries a page holds when `p` entries are positive: what is
   * left of them from `start` on, at most `number`.
   */
  function PageSize(p: int, start: int, number: int): int {
    var left := if p > start then p - start else 0;
    if number < left then number else left
  }

  /** On a sorted list, exactly the first |Positives| entries have a balance. */
  lemma SortedPositivesFirst<T>(bal: T -> u64, s: seq<T>)
    requires NonIncreasing(bal, s)
    ensures |Positives(bal, s)| <= |s|
    ensures forall i :: 0 <= i < |s| ==> (bal(s[i]) > 0 <==> i < |Positives(bal, s)|)
  {
    CutOfSortedIsPositives(bal, s);
    var c := CutAtZero(bal, s);
    forall i | 0 <= i < |s| ensures bal(s[i]) > 0 <==> i < |c| {
      if i < |c| {
        assert s[i] == c[i];
      } else if i > |c| {
        assert bal(s[i]) <= bal(s[|c|]);
      }
    }
  }

  /**
   * On a sorted list a valid page holds every positive entry from `start`
   * on, up to `number` of them: its length does not depend on how entries
   * of equal balance were ordered.
   */
  lemma PageOfSortedLength<T>(bal: T -> u64, s: seq<T>, start: int, number: int)
    requires NonIncreasing(bal, s)
    requires 0 <= start && 0 <= number
    ensures Page(bal, s, start, number).Ok?
    ensures |Page(bal, s, start, number).value| == PageSize(|Positives(bal, s)|, start, number)
  {
    SortedPositivesFirst(bal, s);
    var r := Page(bal, s, start, number).value;
    if start <= |s| {
      var p := |Positives(bal, s)|;
      assert r == s[start..start + |r|];
      if |r| < number && start + |r| < |s| {
        assert bal(s[start + |r|]) == 0;
        assert start + |r| >= p;
      }
      if |r| > 0 {
        assert r[|r| - 1] == s[start + |r| - 1];
        assert bal(s[start + |r| - 1]) > 0;
      }
    }
  }

  /** The page length of a sorted permutation counts the positives of the original. */
  lemma SortedPageLength<T>(bal: T -> u64, all: seq<T>, sorted: seq<T>, start: int, number: int)
    requires multiset(sorted) == multiset(all) && NonIncreasing(bal, sorted)
    ensures 0 <= start && 0 <= number ==>
      Page(bal, sorted, start, number).Ok?
      && |Page(bal, sorted, start, number).value| == PageSize(|Positives(bal, all)|, start, number)
  {
    if 0 <= start && 0 <= number {
      PageOfSortedLength(bal, sorted, start, number);
      PositivesPermutation(bal, sorted, all);
      assert |multiset(Positives(bal, sorted))| == |multiset(Positives(bal, all))|;
    }
  }

  lemma PageFromSource<T>(bal: T -> u64, all: seq<T>, s: seq<T>, start: int, number: int, i: int)
    requires multiset(s) == multiset(all)
    requires Page(bal, s, start, number).Ok?
    requires 0 <= i < |Page(bal, s, start, number).value|
    ensures exists j :: 0 <= j < |all| && all[j] == Page(bal, s, start, number).value[i]
  {
    var v := Page(bal, s, start, number).value;
    assert 0 <= start <= |s|;
    assert v[i] == s[start + i];
    assert v[i] in multiset(all);
    assert v[i] in all;
  }

  // ---------------------------------------------------------------------
  // Questionnaires
  // ---------------------------------------------------------------------

  /** The accounts that answered, Go's nil record counting as nobody. */
  function Answered(st: Storage, id: string): seq<Account> {
    if id in st.replies then st.replies[id] else []
  }

  predicate RepliesInRange(q: Questionnaire, picks: seq<int>) {
    forall i :: 0 <= i < |picks| ==> 0 <= picks[i] < |q.questions|
  }

  /**
   * `AnswerQuestionnaire`: `account` picks the questions `picks` of the
   * questionnaire stored under `questID` and earns its reward.
   */
  function AnswerQuestionnaire(st: Storage, questID: string, picks: seq<int>, account: Account)
    : (r: Result<Storage>)
    ensures questID !in st.questionnaires ==> r == Err("didn't find questionnaire")
    ensures r.Ok? <==>
      && questID in st.questionnaires
      && |picks| <= st.questionnaires[questID].replies
      && RepliesInRange(st.questionnaires[questID], picks)
      && st.questionnaires[questID].reward <= st.questionnaires[questID].balance
      && account !in Answered(st, st.questionnaires[questID].id)
    ensures r.Ok? ==>
      var q := st.questionnaires[questID];
      && r.value.questionnaires == st.questionnaires[questID := q.(balance := q.balance - q.reward)]
      && r.value.replies == st.replies[q.id := Answered(st, q.id) + [account]]
      && r.value.messages == st.messages && r.value.read == st.read
      && r.value.parties == st.parties
  {
    if questID !in st.questionnaires then Err("didn't find questionnaire")
    else
      var q := st.questionnaires[questID];
      if |picks| > q.replies then Err("too many replies")
      else if !RepliesInRange(q, picks) then Err("reply out of bound")
      else if q.balance < q.reward then Err("no reward left")
      else if account in Answered(st, q.id) then Err("cannot answer more than once")
      else
        Ok(st.(questionnaires := st.questionnaires[questID := q.(balance := q.balance - q.reward)],
               replies := st.replies[q.id := Answered(st, q.id) + [account]]))
  }

  /** An account earns a questionnaire's reward at most once. */
  lemma AnswerOnce(st: Storage, questID: string, picks: seq<int>, again: seq<int>, account: Account)
    requires AnswerQuestionnaire(st, questID, picks, account).Ok?
    ensures AnswerQuestionnaire(AnswerQuestionnaire(st, questID, picks, account).value,
                                questID, again, account).Err?
  {
    var st2 := AnswerQuestionnaire(st, questID, picks, account).value;
    var q := st.questionnaires[questID];
    assert st2.questionnaires[questID].id == q.id;
    assert account in Answered(st2, q.id);
  }

  /** What a questionnaire has paid out and can still pay, taken together. */
  function QuestionnaireFunds(st: Storage, id: string): int
    requires id in st.questionnaires
  {
    var q := st.questionnaires[id];
    q.balance + q.reward * |Answered(st, q.id)|
  }

  /** Answering moves one reward from the balance to the new replier. */
  lemma AnswerKeepsFunds(st: Storage, questID: string, picks: seq<int>, account: Account)
    requires Valid(st)
    requires AnswerQuestionnaire(st, questID, picks, account).Ok?
    ensures QuestionnaireFunds(AnswerQuestionnaire(st, questID, picks, account).value, questID)
         == QuestionnaireFunds(st, questID)
  {
  }

  /** `TopupQuestionnaire`: adds `topup` to the balance, wrapping as a uint64. */
  function TopupQuestionnaire(st: Storage, questID: string, topup: u64): (r: Result<Storage>)
    ensures r.Ok? <==> questID in st.questionnaires
    ensures r.Err? ==> r.msg == "this questionnaire doesn't exist"
    ensures r.Ok? ==>
      var q := st.questionnaires[questID];
      && questID in r.value.questionnaires
      && r.value.questionnaires[questID] == q.(balance := r.value.questionnaires[questID].balance)
      && (q.balance + topup < U64Limit ==> r.value.questionnaires[questID].balance == q.balance + topup)
      && r.value.questionnaires[questID].balance == AddU64(q.balance, topup)
      && r.value.questionnaires.Keys == st.questionnaires.Keys
      && (forall k :: k in st.questionnaires && k != questID ==>
            r.value.questionnaires[k] == st.questionnaires[k])
      && r.value == st.(questionnaires := r.value.questionnaires)
  {
    if questID !in st.questionnaires then Err("this questionnaire doesn't exist")
    else
      var q := st.questionnaires[questID];
      Ok(st.(questionnaires := st.questionnaires[questID := q.(balance := AddU64(q.balance, topup))]))
  }

  // ---------------------------------------------------------------------
  // Messages
  // ---------------------------------------------------------------------

  /** `SendMessage`: stores a message under a fresh ID with no readers yet. */
  function SendMessage(st: Storage, msg: Message): (r: Result<Storage>)
    ensures r.Ok? <==> msg.id !in st.messages
    ensures r.Ok? ==>
      && r.value.messages == st.messages[msg.id := msg]
      && r.value.read == st.read[msg.id := []]
      && r.value.questionnaires == st.questionnaires
      && r.value.replies == st.replies && r.value.parties == st.parties
  {
    if msg.id in st.messages then Err("this message-ID already exists")
    else Ok(st.(messages := st.messages[msg.id := msg], read := st.read[msg.id := []]))
  }

  /**
   * The storage part of `ReadMessage`: `reader`, attending the party
   * `partyID`, reads the message `msgID` and, the first time, is owed its
   * reward. The reply is the message as stored afterwards. A message without
   * reader record would make Go dereference a nil pointer; `Valid` storages
   * have none.
   */
  function ReadMessage(st: Storage, msgID: string, partyID: string, reader: Account)
    : (r: Result<(Storage, Message)>)
    ensures msgID !in st.messages ==> r == Err("no such subject")
    ensures msgID in st.messages && partyID !in st.parties ==> r == Err("no such party")
    ensures r.Ok? ==> msgID in st.messages && partyID in st.parties
    ensures r.Ok? && st.messages[msgID].balance < st.messages[msgID].reward ==>
      r.value == (st, st.messages[msgID])
    ensures r.Ok? && st.messages[msgID].reward <= st.messages[msgID].balance ==>
      var m := st.messages[msgID];
      && m.id in st.read
      && (reader in st.read[m.id] ==> r.value == (st, m))
      && (reader !in st.read[m.id] ==>
            && r.value.1 == m.(balance := m.balance - m.reward)
            && r.value.0 == st.(messages := st.messages[msgID := r.value.1],
                                read := st.read[m.id := st.read[m.id] + [reader]]))
  {
    if msgID !in st.messages then Err("no such subject")
    else if partyID !in st.parties then Err("no such party")
    else
      var m := st.messages[msgID];
      if m.balance < m.reward then Ok((st, m))
      else if m.id !in st.read then Err("runtime error: invalid memory address or nil pointer dereference")
      else if reader in st.read[m.id] then Ok((st, m))
      else
        var m2 := m.(balance := m.balance - m.reward);
        Ok((st.(messages := st.messages[msgID := m2],
                read := st.read[m.id := st.read[m.id] + [reader]]), m2))
  }

  /** On a valid storage, reading fails only for an unknown message or party. */
  lemma ReadMessageSucceeds(st: Storage, msgID: string, partyID: string, reader: Account)
    requires Valid(st)
    ensures ReadMessage(st, msgID, partyID, reader).Ok?
        <==> msgID in st.messages && partyID in st.parties
  {
  }

  /** A reader is paid once: reading again leaves the storage as it is. */
  lemma ReadTwiceChangesNothing(st: Storage, msgID: string, partyID: string, reader: Account)
    requires ReadMessage(st, msgID, partyID, reader).Ok?
    ensures var st2 := ReadMessage(st, msgID, partyID, reader).value.0;
      ReadMessage(st2, msgID, partyID, reader).Ok? &&
      ReadMessage(st2, msgID, partyID, reader).value.0 == st2
  {
  }

  /** What a message has paid out and can still pay, taken together. */
  function MessageFunds(st: Storage, id: string): int
    requires id in st.messages && st.messages[id].id in st.read
  {
    var m := st.messages[id];
    m.balance + m.reward * |st.read[m.id]|
  }

  /** Reading moves at most one reward from the balance to the reader. */
  lemma ReadKeepsFunds(st: Storage, msgID: string, partyID: string, reader: Account)
    requires Valid(st)
    requires ReadMessage(st, msgID, partyID, reader).Ok?
    ensures var st2 := ReadMessage(st, msgID, partyID, reader).value.0;
      msgID in st2.messages && st2.messages[msgID].id in st2.read &&
      MessageFunds(st2, msgID) == MessageFunds(st, msgID)
  {
  }

  /** `TopupMessage`: adds `amount` to the balance, wrapping as a uint64. */
  function TopupMessage(st: Storage, msgID: string, amount: u64): (r: Result<Storage>)
    ensures r.Ok? <==> msgID in st.messages
    ensures r.Err? ==> r.msg == "this message doesn't exist"
    ensures r.Ok? ==>
      var m := st.messages[msgID];
      && msgID in r.value.messages
      && r.value.messages[msgID] == m.(balance := r.value.messages[msgID].balance)
      && (m.balance + amount < U64Limit ==> r.value.messages[msgID].balance == m.balance + amount)
      && r.value.messages[msgID].balance == AddU64(m.balance, amount)
      && r.value.messages.Keys == st.messages.Keys
      && (forall k :: k in st.messages && k != msgID ==> r.value.messages[k] == st.messages[k])
      && r.value == st.(messages := r.value.messages)
  {
    if msgID !in st.messages then Err("this message doesn't exist")
    else
      var m := st.messages[msgID];
      Ok(st.(messages := st.messages[msgID := m.(balance := AddU64(m.balance, amount))]))
  }

  // ---------------------------------------------------------------------
  // The storage invariant
  // ---------------------------------------------------------------------

  lemma EmptyStorageValid()
    ensures Valid(EmptyStorage)
  {
  }

  /** Every operation that changes the storage keeps it valid. */
  lemma OperationsKeepValid(st: Storage, id: string, picks: seq<int>, account: Account,
                            amount: u64, msg: Message, partyID: string)
    requires Valid(st)
    ensures AnswerQuestionnaire(st, id, picks, account).Ok? ==>
      Valid(AnswerQuestionnaire(st, id, picks, account).value)
    ensures TopupQuestionnaire(st, id, amount).Ok? ==> Valid(TopupQuestionnaire(st, id, amount).value)
    ensures SendMessage(st, msg).Ok? ==> Valid(SendMessage(st, msg).value)
    ensures ReadMessage(st, id, partyID, account).Ok? ==>
      Valid(ReadMessage(st, id, partyID, account).value.0)
    ensures TopupMessage(st, id, amount).Ok? ==> Valid(TopupMessage(st, id, amount).value)
  {
  }
}
