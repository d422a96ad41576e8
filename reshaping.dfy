/** `pod_reshaping`: fills in the `create_*` and `extend_*` parameters the
    Pods API expects, from the pod's own keys and fixed defaults. */
module Reshaping {
  import opened Php

  /** One parameter: the key written, the key its value is taken from and
      the default used when that key is not set. */
  datatype Reshape = Reshape(target: string, source: string, fallback: string)

  /** The parameters in the order pod_reshaping writes them. */
  const Reshapes: seq<Reshape> := [
    Reshape("create_pod_type", "type", "post_type"),
    Reshape("create_name", "name", ""),
    Reshape("create_label_singular", "label_singular", ""),
    Reshape("create_label_plural", "label", ""),
    Reshape("create_storage", "storage", "meta"),
    Reshape("extend_pod_type", "type", "post_type"),
    Reshape("extend_post_type", "post_type", "post"),
    Reshape("extend_taxonomy", "taxonomy", "category"),
    Reshape("extend_table", "table", ""),
    Reshape("extend_storage", "storage", "meta"),
    Reshape("extend_storage_taxonomy", "storage_taxonomy", "")
  ]

  /** `(isset($pod_data[$source])) ? $pod_data[$source] : $fallback`. */
  function SourceOr(pod: seq<Entry>, rs: Reshape): Value {
    if IsSet(Lookup(pod, rs.source)) then Lookup(pod, rs.source) else Str(rs.fallback)
  }

  /** `(isset($pod_data[$target])) ?: $source_value`: the short ternary
      yields the condition itself, so a key that is already set becomes
      true rather than keeping its value. */
  function Filled(cur: seq<Entry>, orig: seq<Entry>, rs: Reshape): Value {
    if IsSet(Lookup(cur, rs.target)) then Bool(true) else SourceOr(orig, rs)
  }

  /** The assignments of the parameters in rs, one after the other; the
      source values are those read from the pod before any assignment. */
  function FillAll(cur: seq<Entry>, orig: seq<Entry>, rs: seq<Reshape>): seq<Entry>
    decreases |rs|
  {
    if |rs| == 0 then cur
    else
      var last := rs[|rs| - 1];
      var prev := FillAll(cur, orig, rs[..|rs| - 1]);
      Store(prev, K(last.target), Filled(prev, orig, last))
  }

  /** pod_reshaping($pod_data, $action_name). */
  function PodReshaping(pod: seq<Entry>, actionName: Value := Str("create")): seq<Entry> {
    FillAll(Store(pod, K("create_extend"), actionName), pod, Reshapes)
  }

  // ---------------------------------------------------------------------
  // What pod_reshaping promises

  predicate Targets(rs: seq<Reshape>, k: Key) {
    exists j | 0 <= j < |rs| :: k == K(rs[j].target)
  }

  predicate DistinctTargets(rs: seq<Reshape>) {
    forall i, j | 0 <= i < j < |rs| :: rs[i].target != rs[j].target
  }

  /** Keys that are no target are left as they were. */
  lemma {:induction false} FillAllFrame(cur: seq<Entry>, orig: seq<Entry>, rs: seq<Reshape>, k: Key)
    requires !Targets(rs, k)
    ensures Find(FillAll(cur, orig, rs), k) == Find(cur, k)
    decreases |rs|
  {
    if |rs| > 0 {
      var init := rs[..|rs| - 1];
      assert !Targets(init, k) by {
        forall j | 0 <= j < |init| ensures k != K(init[j].target) {
          assert init[j] == rs[j];
        }
      }
      FillAllFrame(cur, orig, init, k);
    }
  }

  /** When the targets are distinct, each target ends as its one assignment
      left it: true when it was already set, otherwise its source value or
      default. */
  lemma {:induction false} FillAllTargets(cur: seq<Entry>, orig: seq<Entry>, rs: seq<Reshape>, j: nat)
    requires DistinctTargets(rs) && j < |rs|
    ensures Find(FillAll(cur, orig, rs), K(rs[j].target)) == Some(Filled(cur, orig, rs[j]))
    decreases |rs|
  {
    var n := |rs|;
    var init := rs[..n - 1];
    var prev := FillAll(cur, orig, init);
    var k := K(rs[j].target);
    assert DistinctTargets(init) by {
      forall a, b | 0 <= a < b < |init| ensures init[a].target != init[b].target {
        assert init[a] == rs[a] && init[b] == rs[b];
      }
    }
    if j < n - 1 {
      assert init[j] == rs[j];
      FillAllTargets(cur, orig, init, j);
      assert K(rs[n - 1].target) != k;
    } else {
      assert !Targets(init, k) by {
        forall i | 0 <= i < |init| ensures k != K(init[i].target) {
          assert init[i] == rs[i];
        }
      }
      FillAllFrame(cur, orig, init, k);
    }
  }

  lemma ReshapesDistinct()
    ensures DistinctTargets(Reshapes)
    ensures !Targets(Reshapes, K("create_extend"))
  {
  }

  /** pod_reshaping sets `create_extend` to the action name, gives every
      `create_*` / `extend_*` parameter its value (true when the pod already
      set it, else the source key's value or the default), and leaves every
      other key as it was. */
  lemma ReshapingResult(pod: seq<Entry>, actionName: Value, k: Key)
    ensures Find(PodReshaping(pod, actionName), K("create_extend")) == Some(actionName)
    ensures forall j | 0 <= j < |Reshapes| ::
      Find(PodReshaping(pod, actionName), K(Reshapes[j].target)) == Some(Filled(pod, pod, Reshapes[j]))
    ensures k != K("create_extend") && !Targets(Reshapes, k) ==> Find(PodReshaping(pod, actionName), k) == Find(pod, k)
  {
    var start := Store(pod, K("create_extend"), actionName);
    ReshapesDistinct();
    FillAllFrame(start, pod, Reshapes, K("create_extend"));
    forall j | 0 <= j < |Reshapes|
      ensures Find(PodReshaping(pod, actionName), K(Reshapes[j].target)) == Some(Filled(pod, pod, Reshapes[j]))
    {
      FillAllTargets(start, pod, Reshapes, j);
      assert Lookup(start, Reshapes[j].target) == Lookup(pod, Reshapes[j].target);
    }
    if k != K("create_extend") && !Targets(Reshapes, k) {
      FillAllFrame(start, pod, Reshapes, k);
    }
  }

  /** The default action is 'create'. */
  lemma DefaultActionIsCreate(pod: seq<Entry>)
    ensures Find(PodReshaping(pod), K("create_extend")) == Some(Str("create"))
  {
    ReshapingResult(pod, Str("create"), K("create_extend"));
  }

  /** Because of the short ternary, reshaping an already reshaped pod turns
      every parameter into true: the first pass sets them all. */
  lemma ReshapingTwiceSetsTrue(pod: seq<Entry>, a1: Value, a2: Value, j: nat)
    requires j < |Reshapes|
    ensures Find(PodReshaping(PodReshaping(pod, a1), a2), K(Reshapes[j].target)) == Some(Bool(true))
  {
    var once := PodReshaping(pod, a1);
    ReshapingResult(pod, a1, K("create_extend"));
    ReshapingResult(once, a2, K("create_extend"));
    assert IsSet(Lookup(once, Reshapes[j].target));
  }
}
