/** What the registry promises: skip rules, last registration wins, the
    shape of what is stored, what each helper leaves alone, and the quirk of
    the field guards. */
module RegistryProperties {
  import opened Php
  import opened Registry

  // ---------------------------------------------------------------------
  // register_config_pods

  /** An item with an empty `type` or `name` is passed over: a list of such
      items leaves the registry unchanged. */
  lemma {:induction false} PodsSkipsRejected(t: Tables, items: seq<Entry>, file: string)
    requires forall j | 0 <= j < |items| :: !PodAccepted(items[j].val)
    ensures PodsSpec(t, items, file) == t
    decreases |items|
  {
    if |items| > 0 {
      PodsSkipsRejected(t, items[..|items| - 1], file);
    }
  }

  /** The last item of a list, when accepted, is filed at its slot. */
  lemma PodsLastAt(t: Tables, items: seq<Entry>, file: string)
    requires |items| > 0
    requires var x := items[|items| - 1].val; PodAccepted(x) && PodSlot(x).0.Some? && PodSlot(x).1.Some?
    ensures var x := items[|items| - 1].val;
      PodAt(PodsSpec(t, items, file).pods, PodSlot(x).0, PodSlot(x).1) == StoredPod(x)
  {
  }

  /** The last item of a list leaves alone a slot it is not accepted for. */
  lemma PodsLastElsewhere(t: Tables, items: seq<Entry>, file: string, tk: Key, nk: Key)
    requires |items| > 0
    requires var x := items[|items| - 1].val; !(PodAccepted(x) && PodSlot(x) == (Some(tk), Some(nk)))
    ensures PodAt(PodsSpec(t, items, file).pods, Some(tk), Some(nk))
            == PodAt(PodsSpec(t, items[..|items| - 1], file).pods, Some(tk), Some(nk))
  {
  }

  /** The pod filed under (type, name) is the last accepted item with that
      type and name, with `id` unset and `fields` defaulted. */
  lemma {:induction false} PodsLastWins(t: Tables, items: seq<Entry>, file: string, i: nat)
    requires i < |items| && PodAccepted(items[i].val)
    requires PodSlot(items[i].val).0.Some? && PodSlot(items[i].val).1.Some?
    requires forall j | i < j < |items| :: !(PodAccepted(items[j].val) && PodSlot(items[j].val) == PodSlot(items[i].val))
    ensures PodAt(PodsSpec(t, items, file).pods, PodSlot(items[i].val).0, PodSlot(items[i].val).1)
            == StoredPod(items[i].val)
    decreases |items|
  {
    var n := |items|;
    var slot := PodSlot(items[i].val);
    if i < n - 1 {
      var init := items[..n - 1];
      assert init[i] == items[i];
      assert forall j | i < j < |init| :: !(PodAccepted(init[j].val) && PodSlot(init[j].val) == slot) by {
        forall j | i < j < |init| ensures !(PodAccepted(init[j].val) && PodSlot(init[j].val) == slot) {
          assert init[j] == items[j];
        }
      }
      PodsLastWins(t, init, file, i);
      assert !(PodAccepted(items[n - 1].val) && PodSlot(items[n - 1].val) == slot);
      PodsLastElsewhere(t, items, file, slot.0.value, slot.1.value);
    } else {
      PodsLastAt(t, items, file);
    }
  }

  /** A slot that no accepted item aims at keeps what it held before the
      call. */
  lemma {:induction false} PodsUntouched(t: Tables, items: seq<Entry>, file: string, tk: Key, nk: Key)
    requires forall j | 0 <= j < |items| :: !(PodAccepted(items[j].val) && PodSlot(items[j].val) == (Some(tk), Some(nk)))
    ensures PodAt(PodsSpec(t, items, file).pods, Some(tk), Some(nk)) == PodAt(t.pods, Some(tk), Some(nk))
    decreases |items|
  {
    if |items| > 0 {
      PodsUntouched(t, items[..|items| - 1], file, tk, nk);
      PodsLastElsewhere(t, items, file, tk, nk);
    }
  }

  /** `file_path_configs[file]['pods']` ends as "type:name" of the last
      accepted item. */
  lemma {:induction false} PodsRecordsLast(t: Tables, items: seq<Entry>, file: string, i: nat)
    requires i < |items| && PodAccepted(items[i].val)
    requires forall j | i < j < |items| :: !PodAccepted(items[j].val)
    ensures var r := PodsSpec(t, items, file).filePathConfigs;
      && file in r && K("pods") in r[file]
      && r[file][K("pods")] == Str(ToStr(Get(items[i].val, "type")) + ":" + ToStr(Get(items[i].val, "name")))
    decreases |items|
  {
    var n := |items|;
    if i < n - 1 {
      PodsRecordsLast(t, items[..n - 1], file, i);
    }
  }

  lemma PodStepFrame(t: Tables, item: Value, file: string)
    ensures var r := PodStep(t, item, file);
      && r == t.(pods := r.pods, filePathConfigs := r.filePathConfigs)
      && OnlySlotChanged(t.filePathConfigs, r.filePathConfigs, file, K("pods"))
  {
    if PodAccepted(item) {
      NoteOnlySlot(t.filePathConfigs, file, K("pods"), Str(ToStr(Get(item, "type")) + ":" + ToStr(Get(item, "name"))));
    }
  }

  /** register_config_pods touches only `pods` and the file's 'pods' entry. */
  lemma {:induction false} PodsFrame(t: Tables, items: seq<Entry>, file: string)
    ensures var r := PodsSpec(t, items, file);
      && r == t.(pods := r.pods, filePathConfigs := r.filePathConfigs)
      && OnlySlotChanged(t.filePathConfigs, r.filePathConfigs, file, K("pods"))
    decreases |items|
  {
    if |items| > 0 {
      var prev := PodsSpec(t, items[..|items| - 1], file);
      var r := PodStep(prev, items[|items| - 1].val, file);
      assert PodsSpec(t, items, file) == r;
      PodsFrame(t, items[..|items| - 1], file);
      PodStepFrame(prev, items[|items| - 1].val, file);
      OnlySlotChangedTrans(t.filePathConfigs, prev.filePathConfigs, r.filePathConfigs, file, K("pods"));
    }
  }

  /** What a pod filed by register_config_pods looks like: an array without
      a set `id` and with a `fields` key. */
  predicate PodShaped(v: Value) {
    v.Arr? && !IsSet(Get(v, "id")) && Find(v.entries, K("fields")).Some?
  }

  predicate AllPodsShaped(pods: PodTable) {
    forall tk, nk | tk in pods && nk in pods[tk] :: PodShaped(pods[tk][nk])
  }

  lemma PutPodKeepsShape(pods: PodTable, tk: Option<Key>, nk: Option<Key>, v: Value)
    requires AllPodsShaped(pods) && PodShaped(v)
    ensures AllPodsShaped(PutPod(pods, tk, nk, v))
  {
  }

  lemma PodStepKeepsShape(t: Tables, item: Value, file: string)
    requires AllPodsShaped(t.pods)
    ensures AllPodsShaped(PodStep(t, item, file).pods)
  {
    if PodAccepted(item) {
      var tk := KeyOf(Get(item, "type"));
      var pods := OpenType(t.pods, tk);
      assert AllPodsShaped(pods);
      PutPodKeepsShape(pods, tk, KeyOf(Get(item, "name")), StoredPod(item));
    }
  }

  /** register_config_pods only ever files pods of that shape. */
  lemma {:induction false} PodsKeepShape(t: Tables, items: seq<Entry>, file: string)
    requires AllPodsShaped(t.pods)
    ensures AllPodsShaped(PodsSpec(t, items, file).pods)
    decreases |items|
  {
    if |items| > 0 {
      var prev := PodsSpec(t, items[..|items| - 1], file);
      PodsKeepShape(t, items[..|items| - 1], file);
      PodStepKeepsShape(prev, items[|items| - 1].val, file);
    }
  }

  // ---------------------------------------------------------------------
  // register_config_fields

  /** An item without `type`, `name`, `pod.name` or `pod.type` is passed
      over: a list of such items leaves the registry unchanged. */
  lemma {:induction false} FieldsSkipsRejected(t: Tables, items: seq<Entry>, file: string)
    requires forall j | 0 <= j < |items| :: !FieldAccepted(items[j].val)
    ensures FieldsSpec(t, items, file) == t
    decreases |items|
  {
    if |items| > 0 {
      FieldsSkipsRejected(t, items[..|items| - 1], file);
    }
  }

  /** The pod slot an accepted field item writes to: its pod's type and name,
      and the field's own name. */
  function FieldSlot(item: Value): (Option<Key>, Option<Key>, Option<Key>) {
    (KeyOf(Get(Get(item, "pod"), "type")), KeyOf(Get(Get(item, "pod"), "name")), KeyOf(Get(item, "name")))
  }

  predicate FieldSlotLegal(item: Value) {
    FieldSlot(item).0.Some? && FieldSlot(item).1.Some? && FieldSlot(item).2.Some?
  }

  /** A pod slot value that the nested write of line 507 can put a field
      into: nothing yet (null or false, which become an array), or an array
      whose `fields` value is an array or can become one. */
  predicate CanTakeField(p: Value) {
    p == Null || p == Bool(false) || (p.Arr? && Writable(Get(p, "fields")))
  }

  /** Where the guard key is not a registered pod type, the item's pod is
      filed afresh and its `fields` emptied. */
  lemma PrepareResetsPod(pods: PodTable, pod: Value, guard: Option<Key>)
    requires pod.Arr?
    requires KeyOf(Get(pod, "type")).Some? && KeyOf(Get(pod, "name")).Some?
    requires !GuardHit(OpenType(pods, KeyOf(Get(pod, "type"))), guard)
    ensures var tk, nk := KeyOf(Get(pod, "type")), KeyOf(Get(pod, "name"));
      var p := PrepareFieldPod(pods, pod, guard);
      && PodAt(p, tk, nk) == Arr(Store(pod.entries, K("fields"), Arr([])))
      && p.Keys == OpenType(pods, tk).Keys
  {
  }

  /** Where the guard key is a registered pod type, the pod already filed is
      kept, and its `fields` emptied unless that type holds a pod named
      'fields'. */
  lemma PrepareKeepsPod(pods: PodTable, pod: Value, guard: Option<Key>)
    requires KeyOf(Get(pod, "type")).Some? && KeyOf(Get(pod, "name")).Some?
    requires GuardHit(OpenType(pods, KeyOf(Get(pod, "type"))), guard)
    ensures var tk, nk := KeyOf(Get(pod, "type")), KeyOf(Get(pod, "name"));
      var before := PodAt(pods, tk, nk);
      PodAt(PrepareFieldPod(pods, pod, guard), tk, nk)
        == if GuardFieldsHit(OpenType(pods, tk), guard) then before
           else WriteDim(before, K("fields"), Arr([]))
  {
  }

  /** The nested write of line 507 lands when the pod slot is free or holds
      an array whose `fields` can take elements. */
  lemma PutFieldAt(pods: PodTable, tk: Key, nk: Key, fk: Key, v: Value)
    requires CanTakeField(PodAt(pods, Some(tk), Some(nk)))
    ensures var p := PodAt(PutField(pods, Some(tk), Some(nk), Some(fk), v), Some(tk), Some(nk));
      && p.Arr? && Get(p, "fields").Arr?
      && Find(Get(p, "fields").entries, fk) == Some(v)
  {
  }

  /** The slot and the guard of an accepted field item, read from its pod
      after the pod's `id` is unset, are those of the item's own pod. */
  lemma FieldPodKeys(item: Value)
    requires FieldAccepted(item)
    ensures var pod := StripId(Get(item, "pod"));
      && pod.Arr?
      && Get(pod, "type") == Get(Get(item, "pod"), "type")
      && Get(pod, "name") == Get(Get(item, "pod"), "name")
  {
  }

  /** After an accepted field item, `pods[pod.type][pod.name].fields[name]`
      is the item with its `id` (and its pod's `id`) unset, and the file's
      'pods' entry is "podtype:podname:name". Where the guard key is a
      registered pod type, the pod already filed must be able to take the
      field: as it is when the guard finds a pod named 'fields' (line 499
      then resets nothing), and after `fields` is reset otherwise. */
  lemma FieldStepStoresField(t: Tables, item: Value, file: string)
    requires FieldAccepted(item) && FieldSlotLegal(item)
    requires var o := OpenType(t.pods, FieldSlot(item).0);
      var g := GuardSlot(Get(Get(item, "pod"), "type"), Get(Get(item, "pod"), "name"));
      var before := PodAt(t.pods, FieldSlot(item).0, FieldSlot(item).1);
      GuardHit(o, g) ==> if GuardFieldsHit(o, g) then CanTakeField(before) else Writable(before)
    ensures var pod := PodAt(FieldStep(t, item, file).pods, FieldSlot(item).0, FieldSlot(item).1);
      && pod.Arr? && Get(pod, "fields").Arr?
      && Find(Get(pod, "fields").entries, FieldSlot(item).2.value) == Some(StoredField(item))
    ensures var r := FieldStep(t, item, file).filePathConfigs;
      && file in r && K("pods") in r[file]
      && r[file][K("pods")] == Str(ToStr(Get(Get(item, "pod"), "type")) + ":" + ToStr(Get(Get(item, "pod"), "name"))
                                   + ":" + ToStr(Get(item, "name")))
  {
    FieldPodKeys(item);
    var pod := StripId(Get(item, "pod"));
    var tk, nk, fk := FieldSlot(item).0, FieldSlot(item).1, FieldSlot(item).2;
    var guard := GuardSlot(Get(pod, "type"), Get(pod, "name"));
    var prepared := PrepareFieldPod(t.pods, pod, guard);
    if GuardHit(OpenType(t.pods, tk), guard) {
      PrepareKeepsPod(t.pods, pod, guard);
      if !GuardFieldsHit(OpenType(t.pods, tk), guard) {
        var w := WriteDim(PodAt(t.pods, tk, nk), K("fields"), Arr([]));
        assert w.Arr? && Get(w, "fields") == Arr([]);
      }
    } else {
      PrepareResetsPod(t.pods, pod, guard);
      assert Get(Arr(Store(pod.entries, K("fields"), Arr([]))), "fields") == Arr([]);
    }
    PutFieldAt(prepared, tk.value, nk.value, fk.value, StoredField(item));
  }

  /** What the guards of lines 494 and 499 look up for ordinary names: the
      one-character string made of the pod type's first character, not the
      pod type itself. */
  lemma GuardIsFirstChar(podType: string, podName: string)
    requires |podType| > 0 && !IsDigit(podType[0])
    requires |podName| > 0 && !IsDigit(podName[0]) && podName[0] != '-' && podName[0] != '+' && !IsSpace(podName[0])
    ensures GuardSlot(Str(podType), Str(podName)) == Some(StrKey([podType[0]]))
  {
    StringOffsetReadsFirstChar(podType, podName);
    assert !IsIntString([podType[0]]);
  }

  /** The guard quirk: when the key the guards actually look up is not a pod
      type, the field item replaces the whole pod entry with its own `pod`
      sub-array, whose `fields` then hold this one field only. */
  lemma FieldResetsPod(t: Tables, item: Value, file: string)
    requires FieldAccepted(item) && FieldSlotLegal(item)
    requires !GuardHit(OpenType(t.pods, FieldSlot(item).0),
                       GuardSlot(Get(Get(item, "pod"), "type"), Get(Get(item, "pod"), "name")))
    ensures PodAt(FieldStep(t, item, file).pods, FieldSlot(item).0, FieldSlot(item).1)
            == Arr(Store(StripId(Get(item, "pod")).entries, K("fields"),
                         Arr([Entry(FieldSlot(item).2.value, StoredField(item))])))
    ensures FieldStep(t, item, file).pods.Keys == OpenType(t.pods, FieldSlot(item).0).Keys
  {
    FieldPodKeys(item);
    var pod := StripId(Get(item, "pod"));
    var guard := GuardSlot(Get(pod, "type"), Get(pod, "name"));
    PrepareResetsPod(t.pods, pod, guard);
    var fs := Arr([Entry(FieldSlot(item).2.value, StoredField(item))]);
    StoreTwice(pod.entries, K("fields"), Arr([]), fs);
  }

  lemma FieldsTwo(t: Tables, e1: Entry, e2: Entry, file: string)
    ensures FieldsSpec(t, [e1, e2], file) == FieldStep(FieldStep(t, e1.val, file), e2.val, file)
  {
    assert [e1, e2][..1] == [e1];
    assert [e1][..0] == [];
    assert FieldsSpec(t, [e1], file) == FieldStep(t, e1.val, file);
  }

  /** Consequence of the quirk: two fields registered one after the other for
      the same pod leave only the second one in the pod's `fields`. */
  lemma SecondFieldDropsFirst(t: Tables, e1: Entry, e2: Entry, file: string)
    requires FieldAccepted(e1.val) && FieldSlotLegal(e1.val)
    requires FieldAccepted(e2.val) && FieldSlotLegal(e2.val)
    requires Get(e1.val, "pod") == Get(e2.val, "pod")
    requires !GuardHit(OpenType(t.pods, FieldSlot(e1.val).0),
                       GuardSlot(Get(Get(e1.val, "pod"), "type"), Get(Get(e1.val, "pod"), "name")))
    ensures Get(PodAt(FieldsSpec(t, [e1, e2], file).pods, FieldSlot(e1.val).0, FieldSlot(e1.val).1), "fields")
            == Arr([Entry(FieldSlot(e2.val).2.value, StoredField(e2.val))])
  {
    var x1, x2 := e1.val, e2.val;
    FieldsTwo(t, e1, e2, file);
    var t1 := FieldStep(t, x1, file);
    FieldResetsPod(t, x1, file);
    assert OpenType(t1.pods, FieldSlot(x1).0).Keys == t1.pods.Keys;
    FieldResetsPod(t1, x2, file);
    var pod2 := StripId(Get(x2, "pod"));
    var fs := Arr([Entry(FieldSlot(x2).2.value, StoredField(x2))]);
    assert Find(Store(pod2.entries, K("fields"), fs), K("fields")) == Some(fs);
  }

  lemma FieldStepFrame(t: Tables, item: Value, file: string)
    ensures var r := FieldStep(t, item, file);
      && r == t.(pods := r.pods, filePathConfigs := r.filePathConfigs)
      && OnlySlotChanged(t.filePathConfigs, r.filePathConfigs, file, K("pods"))
  {
    if FieldAccepted(item) {
      var pod := StripId(Get(item, "pod"));
      NoteOnlySlot(t.filePathConfigs, file, K("pods"),
                   Str(ToStr(Get(pod, "type")) + ":" + ToStr(Get(pod, "name")) + ":" + ToStr(Get(item, "name"))));
    }
  }

  /** register_config_fields touches only `pods` and the file's 'pods' entry. */
  lemma {:induction false} FieldsFrame(t: Tables, items: seq<Entry>, file: string)
    ensures var r := FieldsSpec(t, items, file);
      && r == t.(pods := r.pods, filePathConfigs := r.filePathConfigs)
      && OnlySlotChanged(t.filePathConfigs, r.filePathConfigs, file, K("pods"))
    decreases |items|
  {
    if |items| > 0 {
      var prev := FieldsSpec(t, items[..|items| - 1], file);
      var r := FieldStep(prev, items[|items| - 1].val, file);
      assert FieldsSpec(t, items, file) == r;
      FieldsFrame(t, items[..|items| - 1], file);
      FieldStepFrame(prev, items[|items| - 1].val, file);
      OnlySlotChangedTrans(t.filePathConfigs, prev.filePathConfigs, r.filePathConfigs, file, K("pods"));
    }
  }

  // ---------------------------------------------------------------------
  // register_config_templates / _pages / _helpers

  /** The entry filed under a name is the last item with that name, `id`
      unset. */
  lemma {:induction false} NamedLastWins(t: Tables, kind: Kind, items: seq<Entry>, file: string, i: nat)
    requires i < |items| && !Empty(Get(items[i].val, "name")) && KeyOf(Get(items[i].val, "name")).Some?
    requires forall j | i < j < |items| ::
      !(!Empty(Get(items[j].val, "name")) && KeyOf(Get(items[j].val, "name")) == KeyOf(Get(items[i].val, "name")))
    ensures var m := Named(NamedSpec(t, kind, items, file), kind);
      var k := KeyOf(Get(items[i].val, "name")).value;
      k in m && m[k] == StripId(items[i].val)
    decreases |items|
  {
    var n := |items|;
    if i < n - 1 {
      NamedLastWins(t, kind, items[..n - 1], file, i);
    }
  }

  /** A name that no item carries keeps the entry it had before the call,
      or stays absent. */
  lemma {:induction false} NamedUntouched(t: Tables, kind: Kind, items: seq<Entry>, file: string, k: Key)
    requires forall j | 0 <= j < |items| ::
      !(!Empty(Get(items[j].val, "name")) && KeyOf(Get(items[j].val, "name")) == Some(k))
    ensures var m, m0 := Named(NamedSpec(t, kind, items, file), kind), Named(t, kind);
      && (k in m <==> k in m0)
      && (k in m0 ==> m[k] == m0[k])
    decreases |items|
  {
    if |items| > 0 {
      NamedUntouched(t, kind, items[..|items| - 1], file, k);
    }
  }

  /** The file's per-kind entry holds the name of the last accepted item. */
  lemma {:induction false} NamedRecordsLast(t: Tables, kind: Kind, items: seq<Entry>, file: string, i: nat)
    requires i < |items| && !Empty(Get(items[i].val, "name"))
    requires forall j | i < j < |items| :: Empty(Get(items[j].val, "name"))
    ensures var r := NamedSpec(t, kind, items, file).filePathConfigs;
      file in r && KindKey(kind) in r[file] && r[file][KindKey(kind)] == Get(items[i].val, "name")
    decreases |items|
  {
    var n := |items|;
    if i < n - 1 {
      NamedRecordsLast(t, kind, items[..n - 1], file, i);
    }
  }

  lemma NamedStepFrame(t: Tables, kind: Kind, item: Value, file: string)
    ensures var r := NamedStep(t, kind, item, file);
      && r == WithNamed(t, kind, Named(r, kind)).(filePathConfigs := r.filePathConfigs)
      && OnlySlotChanged(t.filePathConfigs, r.filePathConfigs, file, KindKey(kind))
      && (Empty(Get(item, "name")) ==> r == t)
  {
    if !Empty(Get(item, "name")) {
      NoteOnlySlot(t.filePathConfigs, file, KindKey(kind), Get(item, "name"));
    }
  }

  /** Nameless items are passed over, and the only registry map that changes
      is the kind's own (plus the file's per-kind entry). */
  lemma {:induction false} NamedFrame(t: Tables, kind: Kind, items: seq<Entry>, file: string)
    ensures var r := NamedSpec(t, kind, items, file);
      && r == WithNamed(t, kind, Named(r, kind)).(filePathConfigs := r.filePathConfigs)
      && OnlySlotChanged(t.filePathConfigs, r.filePathConfigs, file, KindKey(kind))
      && ((forall j | 0 <= j < |items| :: Empty(Get(items[j].val, "name"))) ==> r == t)
    decreases |items|
  {
    if |items| > 0 {
      var init := items[..|items| - 1];
      var prev := NamedSpec(t, kind, init, file);
      var r := NamedStep(prev, kind, items[|items| - 1].val, file);
      assert NamedSpec(t, kind, items, file) == r;
      NamedFrame(t, kind, init, file);
      NamedStepFrame(prev, kind, items[|items| - 1].val, file);
      OnlySlotChangedTrans(t.filePathConfigs, prev.filePathConfigs, r.filePathConfigs, file, KindKey(kind));
      if forall j | 0 <= j < |items| :: Empty(Get(items[j].val, "name")) {
        assert forall j | 0 <= j < |init| :: Empty(Get(init[j].val, "name")) by {
          forall j | 0 <= j < |init| ensures Empty(Get(init[j].val, "name")) {
            assert init[j] == items[j];
          }
        }
      }
    }
  }

  // ---------------------------------------------------------------------
  // register_config_custom_item_type

  /** `custom_configs[itemtype][name]` is the last filtered item with that
      name, `id` unset. */
  lemma {:induction false} CustomLastWins(t: Tables, itemType: Key, items: seq<Entry>, file: string, filter: ItemFilter, i: nat)
    requires i < |items|
    requires var it := filter(items[i].val, itemType, file);
      !Empty(Get(it, "name")) && KeyOf(Get(it, "name")).Some?
    requires forall j | i < j < |items| ::
      var it := filter(items[j].val, itemType, file);
      !(!Empty(Get(it, "name")) && KeyOf(Get(it, "name")) == KeyOf(Get(filter(items[i].val, itemType, file), "name")))
    ensures var r := CustomSpec(t, itemType, items, file, filter).customConfigs;
      var it := filter(items[i].val, itemType, file);
      var k := KeyOf(Get(it, "name")).value;
      itemType in r && k in r[itemType] && r[itemType][k] == StripId(it)
    decreases |items|
  {
    var n := |items|;
    if i < n - 1 {
      CustomLastWins(t, itemType, items[..n - 1], file, filter, i);
    }
  }

  /** A name that no filtered item carries keeps the entry it had in the
      item type's table before the call, or stays absent. */
  lemma {:induction false} CustomUntouched(t: Tables, itemType: Key, items: seq<Entry>, file: string, filter: ItemFilter, k: Key)
    requires forall j | 0 <= j < |items| ::
      var it := filter(items[j].val, itemType, file);
      !(!Empty(Get(it, "name")) && KeyOf(Get(it, "name")) == Some(k))
    ensures var r := CustomSpec(t, itemType, items, file, filter).customConfigs;
      var before := if itemType in t.customConfigs then t.customConfigs[itemType] else map[];
      && itemType in r
      && (k in r[itemType] <==> k in before)
      && (k in before ==> r[itemType][k] == before[k])
    decreases |items|
  {
    if |items| > 0 {
      CustomUntouched(t, itemType, items[..|items| - 1], file, filter, k);
    }
  }

  /** Items that the filter leaves without a name are passed over: only the
      item type's table is opened. */
  lemma {:induction false} CustomSkipsNameless(t: Tables, itemType: Key, items: seq<Entry>, file: string, filter: ItemFilter)
    requires forall j | 0 <= j < |items| :: Empty(Get(filter(items[j].val, itemType, file), "name"))
    ensures CustomSpec(t, itemType, items, file, filter) == OpenCustom(t, itemType)
    decreases |items|
  {
    if |items| > 0 {
      CustomSkipsNameless(t, itemType, items[..|items| - 1], file, filter);
    }
  }

  /** `file_path_configs[file][itemtype]` holds the name of the last item
      the filter leaves with a name. */
  lemma {:induction false} CustomRecordsLast(t: Tables, itemType: Key, items: seq<Entry>, file: string, filter: ItemFilter, i: nat)
    requires i < |items| && !Empty(Get(filter(items[i].val, itemType, file), "name"))
    requires forall j | i < j < |items| :: Empty(Get(filter(items[j].val, itemType, file), "name"))
    ensures var r := CustomSpec(t, itemType, items, file, filter).filePathConfigs;
      file in r && itemType in r[file] && r[file][itemType] == Get(filter(items[i].val, itemType, file), "name")
    decreases |items|
  {
    var n := |items|;
    if i < n - 1 {
      CustomRecordsLast(t, itemType, items[..n - 1], file, filter, i);
    }
  }

  lemma CustomStepFrame(t: Tables, itemType: Key, item: Value, file: string, filter: ItemFilter)
    requires itemType in t.customConfigs
    ensures var r := CustomStep(t, itemType, item, file, filter);
      && r == t.(customConfigs := r.customConfigs, filePathConfigs := r.filePathConfigs)
      && r.customConfigs.Keys == t.customConfigs.Keys
      && (forall k | k in t.customConfigs && k != itemType :: r.customConfigs[k] == t.customConfigs[k])
  {
  }

  lemma CustomStepFileFrame(t: Tables, itemType: Key, item: Value, file: string, filter: ItemFilter)
    ensures OnlySlotChanged(t.filePathConfigs, CustomStep(t, itemType, item, file, filter).filePathConfigs, file, itemType)
  {
    var nm := Get(filter(item, itemType, file), "name");
    if !Empty(nm) {
      NoteOnlySlot(t.filePathConfigs, file, itemType, nm);
    }
  }

  /** The loop of register_config_custom_item_type, once the item type's
      table is open, touches no table but that one. */
  lemma {:induction false} CustomLoopFrame(t: Tables, itemType: Key, items: seq<Entry>, file: string, filter: ItemFilter)
    requires itemType in t.customConfigs
    ensures var r := CustomLoop(t, itemType, items, file, filter);
      && r == t.(customConfigs := r.customConfigs, filePathConfigs := r.filePathConfigs)
      && r.customConfigs.Keys == t.customConfigs.Keys
      && (forall k | k in t.customConfigs && k != itemType :: r.customConfigs[k] == t.customConfigs[k])
    decreases |items|
  {
    if |items| > 0 {
      var prefix := items[..|items| - 1];
      var prev := CustomLoop(t, itemType, prefix, file, filter);
      CustomLoopFrame(t, itemType, prefix, file, filter);
      CustomStepFrame(prev, itemType, items[|items| - 1].val, file, filter);
    }
  }

  /** ... and of `file_path_configs` only the file's entry for the item type. */
  lemma {:induction false} CustomLoopFileFrame(t: Tables, itemType: Key, items: seq<Entry>, file: string, filter: ItemFilter)
    ensures OnlySlotChanged(t.filePathConfigs, CustomLoop(t, itemType, items, file, filter).filePathConfigs, file, itemType)
    decreases |items|
  {
    if |items| > 0 {
      var prefix := items[..|items| - 1];
      var prev := CustomLoop(t, itemType, prefix, file, filter);
      var r := CustomStep(prev, itemType, items[|items| - 1].val, file, filter);
      CustomLoopFileFrame(t, itemType, prefix, file, filter);
      CustomStepFileFrame(prev, itemType, items[|items| - 1].val, file, filter);
      OnlySlotChangedTrans(t.filePathConfigs, prev.filePathConfigs, r.filePathConfigs, file, itemType);
    }
  }

  /** register_config_custom_item_type opens `custom_configs[itemtype]` and
      touches no other table. */
  lemma CustomFrame(t: Tables, itemType: Key, items: seq<Entry>, file: string, filter: ItemFilter)
    ensures var r := CustomSpec(t, itemType, items, file, filter);
      && r == t.(customConfigs := r.customConfigs, filePathConfigs := r.filePathConfigs)
      && itemType in r.customConfigs
      && r.customConfigs.Keys == t.customConfigs.Keys + {itemType}
      && (forall k | k in t.customConfigs && k != itemType :: r.customConfigs[k] == t.customConfigs[k])
  {
    var start := OpenCustom(t, itemType);
    OpenCustomFrame(t, itemType);
    CustomLoopFrame(start, itemType, items, file, filter);
  }

  lemma OpenCustomFrame(t: Tables, itemType: Key)
    ensures var s := OpenCustom(t, itemType);
      && s == t.(customConfigs := s.customConfigs)
      && s.customConfigs.Keys == t.customConfigs.Keys + {itemType}
      && (forall k | k in t.customConfigs && k != itemType :: s.customConfigs[k] == t.customConfigs[k])
  {
    if itemType !in t.customConfigs {
      var cc := t.customConfigs[itemType := map[]];
      assert OpenCustom(t, itemType) == t.(customConfigs := cc);
      assert cc.Keys == t.customConfigs.Keys + {itemType};
    }
  }

  /** ... and of `file_path_configs` it changes only the file's entry for
      the item type. */
  lemma CustomFileFrame(t: Tables, itemType: Key, items: seq<Entry>, file: string, filter: ItemFilter)
    ensures OnlySlotChanged(t.filePathConfigs, CustomSpec(t, itemType, items, file, filter).filePathConfigs, file, itemType)
  {
    var start := OpenCustom(t, itemType);
    assert CustomSpec(t, itemType, items, file, filter) == CustomLoop(start, itemType, items, file, filter);
    assert start.filePathConfigs == t.filePathConfigs;
    CustomLoopFileFrame(start, itemType, items, file, filter);
  }

  // ---------------------------------------------------------------------
  // register_config

  /** The groups register_config acts on, in order: exactly the groups of
      the config that are not skipped. */
  function Relevant(groups: seq<Entry>, fileItemType: Value): (r: seq<Entry>)
    ensures |r| <= |groups|
    ensures forall g :: g in r <==> g in groups && !GroupSkipped(g, fileItemType)
    decreases |groups|
  {
    if |groups| == 0 then []
    else
      var init := groups[..|groups| - 1];
      var g := groups[|groups| - 1];
      assert groups == init + [g];
      var rel := Relevant(init, fileItemType);
      if GroupSkipped(g, fileItemType) then rel else rel + [g]
  }

  /** A single group is kept exactly when it is not skipped. */
  lemma RelevantOne(g: Entry, fileItemType: Value)
    ensures Relevant([g], fileItemType) == if GroupSkipped(g, fileItemType) then [] else [g]
  {
    assert [g][..0] == [];
  }

  /** Filtering a concatenation filters each part and keeps their order. */
  lemma {:induction false} RelevantAppend(a: seq<Entry>, b: seq<Entry>, fileItemType: Value)
    ensures Relevant(a + b, fileItemType) == Relevant(a, fileItemType) + Relevant(b, fileItemType)
    decreases |b|
  {
    if |b| == 0 {
      assert a + b == a;
    } else {
      var init := b[..|b| - 1];
      var g := b[|b| - 1];
      assert (a + b)[..|a + b| - 1] == a + init;
      assert (a + b)[|a + b| - 1] == g;
      RelevantAppend(a, init, fileItemType);
    }
  }

  /** register_config acts exactly as if the skipped groups (empty, not an
      array, or foreign to the file's item type) were not in the config. */
  lemma {:induction false} GroupsIgnoreSkipped(t: Tables, groups: seq<Entry>, file: string, fileItemType: Value, filter: ItemFilter)
    ensures GroupsSpec(t, groups, file, fileItemType, filter)
            == GroupsSpec(t, Relevant(groups, fileItemType), file, fileItemType, filter)
    decreases |groups|
  {
    if |groups| > 0 {
      var init := groups[..|groups| - 1];
      var g := groups[|groups| - 1];
      var rel := Relevant(init, fileItemType);
      GroupsIgnoreSkipped(t, init, file, fileItemType, filter);
      if !GroupSkipped(g, fileItemType) {
        assert (rel + [g])[..|rel + [g]| - 1] == rel;
      }
    }
  }

  /** A config with no group register_config acts on only opens the file's
      record in `file_path_configs`. */
  lemma NothingRelevantOnlyOpensFile(t: Tables, config: seq<Entry>, file: string, fileConfig: seq<Entry>, filter: ItemFilter)
    requires forall j | 0 <= j < |config| :: GroupSkipped(config[j], Lookup(fileConfig, "item_type"))
    ensures ConfigSpec(t, config, file, fileConfig, filter) == OpenFile(t, file)
    ensures file in ConfigSpec(t, config, file, fileConfig, filter).filePathConfigs
  {
    var fit := Lookup(fileConfig, "item_type");
    GroupsIgnoreSkipped(OpenFile(t, file), config, file, fit, filter);
    NoneRelevant(config, fit);
  }

  lemma {:induction false} NoneRelevant(groups: seq<Entry>, fileItemType: Value)
    requires forall j | 0 <= j < |groups| :: GroupSkipped(groups[j], fileItemType)
    ensures Relevant(groups, fileItemType) == []
    decreases |groups|
  {
    if |groups| > 0 {
      NoneRelevant(groups[..|groups| - 1], fileItemType);
    }
  }
}
