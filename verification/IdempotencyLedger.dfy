/** The admin control plane's bounded idempotency ledger: a map with a FIFO admission queue.

The reference is the plain list of all inserts ever made.  An insert *admits* its key when the key
is not among the latest 256 admissions, and what the ledger answers is a function of that list.
*/
module IdempotencyLedger {
  import opened Basics

  const MAX_IDEMPOTENCY_ENTRIES: nat := 256

  datatype Submission = Submission(fingerprint: string, taskId: string)

  datatype Insertion = Insertion(key: string, submission: Submission)

  ghost function LastN<T>(s: seq<T>, n: nat): seq<T> {
    if |s| <= n then s else s[|s| - n..]
  }

  ghost predicate Distinct<T>(s: seq<T>) {
    forall i, j :: 0 <= i < j < |s| ==> s[i] != s[j]
  }

  /** The keys in the order they were admitted. */
  ghost function Admissions(history: seq<Insertion>): seq<string> {
    if history == [] then []
    else
      var earlier := Admissions(history[..|history| - 1]);
      var key := history[|history| - 1].key;
      if key in LastN(earlier, MAX_IDEMPOTENCY_ENTRIES) then earlier else earlier + [key]
  }

  ghost function Resident(history: seq<Insertion>): seq<string> {
    LastN(Admissions(history), MAX_IDEMPOTENCY_ENTRIES)
  }

  /** What was most recently submitted under a key, resident or not. */
  ghost function Latest(history: seq<Insertion>, key: string): Option<Submission> {
    if history == [] then None
    else if history[|history| - 1].key == key then Some(history[|history| - 1].submission)
    else Latest(history[..|history| - 1], key)
  }

  /** The queue holds exactly the latest admissions, and the map their latest submissions. */
  ghost predicate Refines(order: seq<string>, ledger: map<string, Submission>, history: seq<Insertion>) {
    order == Resident(history) && QueueHoldsKeys(order, ledger) && AnswersLatest(ledger, history)
  }

  ghost predicate QueueHoldsKeys(order: seq<string>, ledger: map<string, Submission>) {
    Distinct(order) && forall key :: key in ledger <==> key in order
  }

  ghost predicate AnswersLatest(ledger: map<string, Submission>, history: seq<Insertion>) {
    forall key :: key in ledger ==> Latest(history, key) == Some(ledger[key])
  }

  class AdminTaskControlState {
    var idempotencyLedger: map<string, Submission>
    var idempotencyOrder: seq<string>
    ghost var history: seq<Insertion>

    ghost predicate Valid()
      reads this
    {
      Refines(idempotencyOrder, idempotencyLedger, history)
    }

    constructor ()
      ensures Valid() && history == []
    {
      idempotencyLedger := map[];
      idempotencyOrder := [];
      history := [];
    }

    method GetIdempotent(key: string) returns (found: Option<Submission>)
      requires Valid()
      ensures found == if key in Resident(history) then Latest(history, key) else None
    {
      if key in idempotencyLedger {
        found := Some(idempotencyLedger[key]);
      } else {
        found := None;
      }
    }

    method InsertIdempotent(key: string, fingerprint: string, taskId: string)
      requires Valid()
      modifies this
      ensures Valid()
      ensures history == old(history) + [Insertion(key, Submission(fingerprint, taskId))]
      ensures |idempotencyOrder| <= 256
    {
      ghost var before := history;
      ghost var order := idempotencyOrder;
      ghost var ledger := idempotencyLedger;
      if key !in idempotencyLedger {
        while |idempotencyOrder| >= MAX_IDEMPOTENCY_ENTRIES
          invariant history == before
          invariant Evicting(order, idempotencyOrder, ledger, idempotencyLedger)
        {
          var evicted := idempotencyOrder[0];
          idempotencyOrder := idempotencyOrder[1..];
          idempotencyLedger := idempotencyLedger - {evicted};
        }
        idempotencyOrder := idempotencyOrder + [key];
      }
      idempotencyLedger := idempotencyLedger[key := Submission(fingerprint, taskId)];
      history := history + [Insertion(key, Submission(fingerprint, taskId))];
      InsertRefines(order, idempotencyOrder, ledger, idempotencyLedger, before, history[|before|]);
    }
  }

  /** The eviction loop has dropped nothing yet, or exactly the oldest key of a full queue. */
  ghost predicate Evicting(order0: seq<string>, order: seq<string>,
                           ledger0: map<string, Submission>, ledger: map<string, Submission>)
  {
    || (order == order0 && ledger == ledger0)
    || (|order0| == MAX_IDEMPOTENCY_ENTRIES && order == order0[1..] && ledger == ledger0 - {order0[0]})
  }

  /** Admitting a key shifts the window of residents by one, dropping the oldest once it is full. */
  lemma AdmitKeepsWindow(before: seq<Insertion>, item: Insertion)
    ensures Resident(before + [item]) ==
            if item.key in Resident(before) then Resident(before)
            else if |Resident(before)| < MAX_IDEMPOTENCY_ENTRIES then Resident(before) + [item.key]
            else Resident(before)[1..] + [item.key]
  {
    var after := before + [item];
    assert after[..|after| - 1] == before;
  }

  lemma LatestAfter(before: seq<Insertion>, item: Insertion)
    ensures forall key :: Latest(before + [item], key) ==
                          if key == item.key then Some(item.submission) else Latest(before, key)
  {
    var after := before + [item];
    assert after[..|after| - 1] == before;
  }

  lemma AnswersAfter(before: seq<Insertion>, item: Insertion, ledger0: map<string, Submission>,
                     ledger: map<string, Submission>)
    requires AnswersLatest(ledger0, before)
    requires forall key :: key in ledger ==>
               if key == item.key then ledger[key] == item.submission else key in ledger0 && ledger[key] == ledger0[key]
    ensures AnswersLatest(ledger, before + [item])
  {
    LatestAfter(before, item);
    hide Latest;
  }

  lemma QueueShifts(order: seq<string>, ledger0: map<string, Submission>, ledger: map<string, Submission>, key: string)
    requires QueueHoldsKeys(order, ledger0) && order != [] && key !in ledger0
    requires ledger.Keys == ledger0.Keys - {order[0]} + {key}
    ensures QueueHoldsKeys(order[1..] + [key], ledger)
  {
    forall k ensures k in order[1..] <==> k in order && k != order[0] {
    }
  }

  lemma QueueGrows(order: seq<string>, ledger0: map<string, Submission>, ledger: map<string, Submission>, key: string)
    requires QueueHoldsKeys(order, ledger0) && key !in ledger0 && ledger.Keys == ledger0.Keys + {key}
    ensures QueueHoldsKeys(order + [key], ledger)
  {
  }

  lemma InsertRefines(order0: seq<string>, order: seq<string>, ledger0: map<string, Submission>,
                      ledger: map<string, Submission>, before: seq<Insertion>, item: Insertion)
    requires Refines(order0, ledger0, before)
    requires item.key in ledger0 ==> order == order0 && ledger == ledger0[item.key := item.submission]
    requires item.key !in ledger0 && |order0| < MAX_IDEMPOTENCY_ENTRIES ==>
               order == order0 + [item.key] && ledger == ledger0[item.key := item.submission]
    requires item.key !in ledger0 && |order0| == MAX_IDEMPOTENCY_ENTRIES ==>
               && order == order0[1..] + [item.key]
               && ledger == (ledger0 - {order0[0]})[item.key := item.submission]
    ensures Refines(order, ledger, before + [item])
  {
    AdmitKeepsWindow(before, item);
    assert |order0| <= MAX_IDEMPOTENCY_ENTRIES;
    assert item.key in ledger0 <==> item.key in order0;
    hide Resident, AnswersLatest, Distinct;
    AnswersAfter(before, item, ledger0, ledger);
    if item.key !in ledger0 {
      hide QueueHoldsKeys;
      if |order0| < MAX_IDEMPOTENCY_ENTRIES {
        QueueGrows(order0, ledger0, ledger, item.key);
      } else {
        QueueShifts(order0, ledger0, ledger, item.key);
      }
    }
  }

  lemma RecentIsInWindow<T>(s: seq<T>, n: nat, i: nat)
    requires |s| - n <= i < |s|
    ensures s[i] in LastN(s, n)
  {
    assert s[i] == LastN(s, n)[i - (|s| - |LastN(s, n)|)];
  }

  /** Between two admissions of one key lie at least 256 other admissions. */
  lemma {:induction false} ReadmissionNeedsEviction(history: seq<Insertion>, i: nat, j: nat)
    requires i < j < |Admissions(history)|
    requires Admissions(history)[i] == Admissions(history)[j]
    ensures j - i > 256
  {
    var earlier := Admissions(history[..|history| - 1]);
    if j < |earlier| {
      ReadmissionNeedsEviction(history[..|history| - 1], i, j);
    } else {
      assert j == |earlier| && history[|history| - 1].key == earlier[i];
      if j - i <= MAX_IDEMPOTENCY_ENTRIES {
        RecentIsInWindow(earlier, MAX_IDEMPOTENCY_ENTRIES, i);
        assert false;
      }
    }
  }

  lemma AdmissionsAppend(history: seq<Insertion>, item: Insertion)
    ensures Admissions(history + [item]) ==
            if item.key in Resident(history) then Admissions(history) else Admissions(history) + [item.key]
  {
    assert (history + [item])[..|history|] == history;
  }

  /** Admissions are only ever appended. */
  lemma {:induction false} AdmissionsGrow(history: seq<Insertion>, more: seq<Insertion>)
    ensures Admissions(history) <= Admissions(history + more)
  {
    hide Admissions, Resident;
    if more == [] {
      assert history + more == history;
    } else {
      var shorter, last := more[..|more| - 1], more[|more| - 1];
      AdmissionsGrow(history, shorter);
      assert history + more == (history + shorter) + [last];
      AdmissionsAppend(history + shorter, last);
    }
  }

  /** A key's residency is decided by the number of admissions from its own onwards: it answers
      through the 256th, whatever is re-submitted meanwhile, and is gone at the 257th. */
  lemma {:induction false} LifetimeIsExactly256Admissions(before: seq<Insertion>, item: Insertion, more: seq<Insertion>)
    requires item.key !in Resident(before)
    ensures var total := |Admissions(before + [item] + more)| - |Admissions(before)|;
      && total >= 1
      && (total <= 256 ==> item.key in Resident(before + [item] + more))
      && (total == 257 ==> item.key !in Resident(before + [item] + more))
  {
    var start := before + [item];
    var position := |Admissions(before)|;
    AdmissionsAppend(before, item);
    AdmissionsGrow(start, more);
    hide Admissions;
    var all := Admissions(start + more);
    assert all[position] == Admissions(start)[position] == item.key;
    var window := LastN(all, MAX_IDEMPOTENCY_ENTRIES);
    var total := |all| - position;
    if total <= MAX_IDEMPOTENCY_ENTRIES {
      assert window[position - (|all| - |window|)] == item.key;
    } else if total == MAX_IDEMPOTENCY_ENTRIES + 1 && item.key in window {
      var k :| 0 <= k < |window| && window[k] == item.key;
      ReadmissionNeedsEviction(start + more, position, k + (|all| - |window|));
    }
  }

  /** Every key ever submitted has been admitted, so a key is missing only by eviction. */
  lemma {:induction false} SubmittedWasAdmitted(history: seq<Insertion>, key: string)
    ensures Latest(history, key).Some? <==> key in Admissions(history)
  {
    if history != [] {
      SubmittedWasAdmitted(history[..|history| - 1], key);
    }
  }

  /** With at most 256 admissions so far nothing has been forgotten: lookup is the plain map of
      latest submissions. */
  lemma NothingForgottenWithin256(history: seq<Insertion>, key: string)
    requires |Admissions(history)| <= 256
    ensures (if key in Resident(history) then Latest(history, key) else None) == Latest(history, key)
  {
    SubmittedWasAdmitted(history, key);
  }
}
