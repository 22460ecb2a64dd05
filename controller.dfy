/**
 * The controller (`WfpController` in src/astral_wfp.rs): one engine
 * session handle and the list of filter ids it installed. The filtering
 * engine itself is outside the model; each engine call is an oracle passed
 * in by the caller (`open` result, `add`, `delete`, `close`).
 */
module Controller {
  import opened Wrappers
  import opened Ints
  import opened Rule
  import opened Layers
  import opened Descriptor

  /** The engine session handle (`HANDLE`); `HANDLE::default()` is 0. */
  type Handle = int

  const NullHandle: Handle := 0

  /** The error the controller reports (`Error::from_win32()`); its code is not modelled. */
  datatype EngineError = EngineError

  // ------------------------------------------------ specification functions

  /** `rule` paired with each of `layers`, in order. */
  function PairWith(rule: FilterRule, layers: seq<Layer>): (pairs: seq<(FilterRule, Layer)>)
    ensures |pairs| == |layers|
  {
    if layers == [] then [] else PairWith(rule, layers[..|layers| - 1]) + [(rule, layers[|layers| - 1])]
  }

  /** The submissions for one rule: the rule at each of its layers, in order. */
  function RuleAttempts(rule: FilterRule): seq<(FilterRule, Layer)>
  {
    PairWith(rule, LayersForRule(rule))
  }

  /**
   * The (rule, layer) pairs `add_advanced_filters` submits, in the order it
   * submits them: rule by rule, and within a rule layer by layer.
   */
  function Attempts(rules: seq<FilterRule>): seq<(FilterRule, Layer)>
  {
    if rules == [] then [] else RuleAttempts(rules[0]) + Attempts(rules[1..])
  }

  /** The ids the engine returns for those `attempts` it accepts, in order. */
  function Installed(h: Handle, attempts: seq<(FilterRule, Layer)>,
                     add: (Handle, FilterDescriptor) -> Option<u64>): seq<u64>
  {
    if attempts == [] then []
    else
      IdOf(add(h, DescriptorFor(attempts[0].0, attempts[0].1))) + Installed(h, attempts[1..], add)
  }

  /** The id an engine answer contributes: the id it returned, or none. */
  function IdOf(outcome: Option<u64>): seq<u64>
  {
    match outcome
    case Some(id) => [id]
    case None => []
  }

  /** The ids among `ids` whose deletion the engine refuses, in order. */
  function FailedDeletes(h: Handle, ids: seq<u64>, delete: (Handle, u64) -> bool): seq<u64>
  {
    if ids == [] then []
    else (if delete(h, ids[0]) then [] else [ids[0]]) + FailedDeletes(h, ids[1..], delete)
  }

  // ------------------------------------------------------------------ lemmas

  /** Regrouping a concatenation, stated once so that the proofs below can name it. */
  lemma AppendAssociative<T>(a: seq<T>, b: seq<T>, c: seq<T>)
    ensures a + (b + c) == (a + b) + c
  {
  }

  lemma {:induction false} AttemptsAppend(a: seq<FilterRule>, b: seq<FilterRule>)
    ensures Attempts(a + b) == Attempts(a) + Attempts(b)
    decreases |a|
  {
    if a == [] {
      assert a + b == b;
    } else {
      AttemptsAppend(a[1..], b);
      assert (a + b)[0] == a[0];
      assert (a + b)[1..] == a[1..] + b;
      AppendAssociative(RuleAttempts(a[0]), Attempts(a[1..]), Attempts(b));
    }
  }

  lemma {:induction false} InstalledAppend(h: Handle, a: seq<(FilterRule, Layer)>, b: seq<(FilterRule, Layer)>,
                                           add: (Handle, FilterDescriptor) -> Option<u64>)
    ensures Installed(h, a + b, add) == Installed(h, a, add) + Installed(h, b, add)
    decreases |a|
  {
    if a == [] {
      assert a + b == b;
    } else {
      InstalledAppend(h, a[1..], b, add);
      assert (a + b)[0] == a[0];
      assert (a + b)[1..] == a[1..] + b;
      AppendAssociative(IdOf(add(h, DescriptorFor(a[0].0, a[0].1))), Installed(h, a[1..], add), Installed(h, b, add));
    }
  }

  /** One more layer of a rule adds the id the engine returns for it, if any. */
  lemma InstalledNextLayer(h: Handle, rule: FilterRule, layers: seq<Layer>, j: nat,
                           add: (Handle, FilterDescriptor) -> Option<u64>)
    requires j < |layers|
    ensures Installed(h, PairWith(rule, layers[..j + 1]), add)
            == Installed(h, PairWith(rule, layers[..j]), add) + IdOf(add(h, DescriptorFor(rule, layers[j])))
  {
    assert layers[..j + 1][..j] == layers[..j];
    InstalledAppend(h, PairWith(rule, layers[..j]), [(rule, layers[j])], add);
    assert [(rule, layers[j])][1..] == [];
  }

  /** One more rule adds the ids the engine returns for that rule's submissions. */
  lemma InstalledNextRule(h: Handle, rules: seq<FilterRule>, i: nat, add: (Handle, FilterDescriptor) -> Option<u64>)
    requires i < |rules|
    ensures Installed(h, Attempts(rules[..i + 1]), add)
            == Installed(h, Attempts(rules[..i]), add) + Installed(h, RuleAttempts(rules[i]), add)
  {
    assert rules[..i + 1] == rules[..i] + [rules[i]];
    AttemptsAppend(rules[..i], [rules[i]]);
    assert [rules[i]][1..] == [];
    assert Attempts([rules[i]]) == RuleAttempts(rules[i]);
    InstalledAppend(h, Attempts(rules[..i]), RuleAttempts(rules[i]), add);
  }

  lemma {:induction false} FailedDeletesAppend(h: Handle, a: seq<u64>, b: seq<u64>, delete: (Handle, u64) -> bool)
    ensures FailedDeletes(h, a + b, delete) == FailedDeletes(h, a, delete) + FailedDeletes(h, b, delete)
    decreases |a|
  {
    if a == [] {
      assert a + b == b;
    } else {
      FailedDeletesAppend(h, a[1..], b, delete);
      assert (a + b)[0] == a[0];
      assert (a + b)[1..] == a[1..] + b;
      var head := if delete(h, a[0]) then [] else [a[0]];
      AppendAssociative(head, FailedDeletes(h, a[1..], delete), FailedDeletes(h, b, delete));
    }
  }

  /**
   * Every rule is submitted at least once and at most twice: the selector
   * never returns an empty layer list, so no rule is skipped.
   */
  lemma {:induction false} AttemptsPerRule(rules: seq<FilterRule>)
    ensures |rules| <= |Attempts(rules)| <= 2 * |rules|
    decreases |rules|
  {
    if rules != [] {
      AttemptsPerRule(rules[1..]);
    }
  }

  /** At most one id per submission, and exactly one each when the engine accepts everything. */
  lemma {:induction false} InstalledCount(h: Handle, attempts: seq<(FilterRule, Layer)>,
                                          add: (Handle, FilterDescriptor) -> Option<u64>)
    ensures |Installed(h, attempts, add)| <= |attempts|
    ensures (forall k :: 0 <= k < |attempts| ==> add(h, DescriptorFor(attempts[k].0, attempts[k].1)).Some?)
            ==> |Installed(h, attempts, add)| == |attempts|
    ensures (forall k :: 0 <= k < |attempts| ==> add(h, DescriptorFor(attempts[k].0, attempts[k].1)).None?)
            ==> Installed(h, attempts, add) == []
    decreases |attempts|
  {
    if attempts != [] {
      var rest := attempts[1..];
      InstalledCount(h, rest, add);
      forall k | 0 <= k < |rest| ensures rest[k] == attempts[k + 1] { }
    }
  }

  /** Every recorded id is one the engine returned for one of the submissions. */
  lemma {:induction false} InstalledFromEngine(h: Handle, attempts: seq<(FilterRule, Layer)>,
                                               add: (Handle, FilterDescriptor) -> Option<u64>, id: u64)
    requires id in Installed(h, attempts, add)
    ensures exists k :: 0 <= k < |attempts| && add(h, DescriptorFor(attempts[k].0, attempts[k].1)) == Some(id)
    decreases |attempts|
  {
    var first := add(h, DescriptorFor(attempts[0].0, attempts[0].1));
    if first != Some(id) {
      InstalledFromEngine(h, attempts[1..], add, id);
      var k :| 0 <= k < |attempts[1..]| && add(h, DescriptorFor(attempts[1..][k].0, attempts[1..][k].1)) == Some(id);
      assert attempts[1..][k] == attempts[k + 1];
    }
  }

  /** Conversely, the id the engine returns for any accepted submission is recorded. */
  lemma {:induction false} InstalledIncludesAccepted(h: Handle, attempts: seq<(FilterRule, Layer)>,
                                                     add: (Handle, FilterDescriptor) -> Option<u64>, k: nat)
    requires k < |attempts| && add(h, DescriptorFor(attempts[k].0, attempts[k].1)).Some?
    ensures add(h, DescriptorFor(attempts[k].0, attempts[k].1)).value in Installed(h, attempts, add)
    decreases k
  {
    if k > 0 {
      InstalledIncludesAccepted(h, attempts[1..], add, k - 1);
      assert attempts[1..][k - 1] == attempts[k];
    }
  }

  /**
   * One accepted submission is enough for `add_advanced_filters` to report
   * success, however many other submissions of the batch the engine refused.
   */
  lemma PartialBatchSucceeds(h: Handle, rules: seq<FilterRule>, add: (Handle, FilterDescriptor) -> Option<u64>, k: nat)
    requires k < |Attempts(rules)|
    requires add(h, DescriptorFor(Attempts(rules)[k].0, Attempts(rules)[k].1)).Some?
    ensures |Installed(h, Attempts(rules), add)| > 0
  {
    InstalledIncludesAccepted(h, Attempts(rules), add, k);
  }

  /** An empty batch installs nothing, so `add_advanced_filters` reports it as an error. */
  lemma EmptyBatchFails(h: Handle, add: (Handle, FilterDescriptor) -> Option<u64>)
    ensures Installed(h, Attempts([]), add) == []
  {
  }

  /** The failed deletions are exactly the tracked ids the engine refuses to delete. */
  lemma {:induction false} FailedDeletesExactly(h: Handle, ids: seq<u64>, delete: (Handle, u64) -> bool, id: u64)
    ensures id in FailedDeletes(h, ids, delete) <==> id in ids && !delete(h, id)
    decreases |ids|
  {
    if ids != [] {
      FailedDeletesExactly(h, ids[1..], delete, id);
      assert ids == [ids[0]] + ids[1..];
    }
  }

  // -------------------------------------------------------------- controller

  class WfpController {
    var engineHandle: Handle
    var filterIds: seq<u64>

    /** `WfpController::new`: no session yet, no filters. */
    constructor ()
      ensures engineHandle == NullHandle && filterIds == []
    {
      engineHandle := NullHandle;
      filterIds := [];
    }

    /**
     * `initialize`: open an engine session. `session` is the engine's answer:
     * the new handle, or None when the engine refuses (typically for lack
     * of administrator rights). Tracked filter ids are untouched.
     */
    method Initialize(session: Option<Handle>) returns (res: Result<(), EngineError>)
      modifies this`engineHandle
      ensures res.Success? <==> session.Some?
      ensures engineHandle == if session.Some? then session.value else old(engineHandle)
    {
      if session.Some? {
        engineHandle := session.value;
        res := Success(());
      } else {
        res := Failure(EngineError);
      }
    }

    /**
     * `add_advanced_filters`: submit a filter for every rule at every layer
     * the selector picks, in order; append each id the engine returns, keep
     * the ids recorded earlier, and fail only when nothing at all was added
     * by this call.
     */
    method AddAdvancedFilters(rules: seq<FilterRule>, add: (Handle, FilterDescriptor) -> Option<u64>)
      returns (res: Result<(), EngineError>)
      modifies this`filterIds
      ensures filterIds == old(filterIds) + Installed(engineHandle, Attempts(rules), add)
      ensures res.Success? <==> |Installed(engineHandle, Attempts(rules), add)| > 0
    {
      var h := engineHandle;
      ghost var ids := filterIds;
      var addedCount: nat := 0;
      for i := 0 to |rules|
        invariant engineHandle == h
        invariant filterIds == ids + Installed(h, Attempts(rules[..i]), add)
        invariant addedCount == |filterIds| - |ids|
      {
        var rule := rules[i];
        var layers := LayersForRule(rule);
        ghost var before := filterIds;
        assert layers[..0] == [];
        for j := 0 to |layers|
          invariant filterIds == before + Installed(h, PairWith(rule, layers[..j]), add)
          invariant addedCount == |filterIds| - |ids|
        {
          var outcome := add(h, DescriptorFor(rule, layers[j]));
          ghost var done := filterIds;
          if outcome.Some? {
            filterIds := filterIds + [outcome.value];
            addedCount := addedCount + 1;
          } else {
            assert done + IdOf(outcome) == done;
          }
          InstalledNextLayer(h, rule, layers, j, add);
          AppendAssociative(before, Installed(h, PairWith(rule, layers[..j]), add), IdOf(outcome));
        }
        assert layers[..|layers|] == layers;
        InstalledNextRule(h, rules, i, add);
        AppendAssociative(ids, Installed(h, Attempts(rules[..i]), add), Installed(h, RuleAttempts(rules[i]), add));
      }
      assert rules[..|rules|] == rules;
      if addedCount > 0 {
        res := Success(());
      } else {
        res := Failure(EngineError);
      }
    }

    /**
     * `cleanup`: ask the engine to delete every tracked filter, whatever
     * the earlier deletions answered, then close the session. `attempted`
     * lists the ids submitted for deletion and `failed` those refused
     * (which the source only reports). The tracked ids are not cleared, and
     * only a failed close is an error.
     */
    method Cleanup(delete: (Handle, u64) -> bool, close: Handle -> bool)
      returns (res: Result<(), EngineError>, attempted: seq<u64>, failed: seq<u64>)
      ensures attempted == filterIds
      ensures failed == FailedDeletes(engineHandle, filterIds, delete)
      ensures res.Success? <==> close(engineHandle)
    {
      attempted, failed := [], [];
      for i := 0 to |filterIds|
        invariant attempted == filterIds[..i]
        invariant failed == FailedDeletes(engineHandle, filterIds[..i], delete)
      {
        var id := filterIds[i];
        attempted := attempted + [id];
        if !delete(engineHandle, id) {
          failed := failed + [id];
        }
        assert filterIds[..i + 1] == filterIds[..i] + [id];
        FailedDeletesAppend(engineHandle, filterIds[..i], [id], delete);
      }
      assert filterIds[..|filterIds|] == filterIds;
      if close(engineHandle) {
        res := Success(());
      } else {
        res := Failure(EngineError);
      }
    }
  }

  /**
   * The life of a controller in `test_add_filter_rules` (src/test.rs): create,
   * initialise, add a batch, clean up, with each `?` returning early on an
   * error. `session` is the engine's answer to the open. When the session
   * opens and the batch installs something, cleanup submits for deletion
   * exactly the ids the batch installed, in installation order, and the
   * outcome is that of closing; otherwise nothing is deleted or closed.
   */
  method InstallAndCleanup(session: Option<Handle>, rules: seq<FilterRule>,
                           add: (Handle, FilterDescriptor) -> Option<u64>,
                           delete: (Handle, u64) -> bool, close: Handle -> bool)
    returns (res: Result<(), EngineError>, attempted: seq<u64>)
    ensures session.None? ==> res.Failure? && attempted == []
    ensures session.Some? && |Installed(session.value, Attempts(rules), add)| == 0 ==>
              res.Failure? && attempted == []
    ensures session.Some? && |Installed(session.value, Attempts(rules), add)| > 0 ==>
              attempted == Installed(session.value, Attempts(rules), add) &&
              (res.Success? <==> close(session.value))
  {
    attempted := [];
    var controller := new WfpController();
    res := controller.Initialize(session);
    if res.Failure? {
      return;
    }
    res := controller.AddAdvancedFilters(rules, add);
    if res.Failure? {
      return;
    }
    var failed;
    res, attempted, failed := controller.Cleanup(delete, close);
  }
}
