/** What `register_config` and its `register_config_*` helpers do to the
    registry, as functions of the registry before the call. Each helper is a
    loop over the items of one group; `...Step` is one iteration of that
    loop and `...Spec` the loop over a list of items. */
module Registry {
  import opened Php

  /** `$this->pods`: pod type => pod name => pod config. */
  type PodTable = map<Key, map<Key, Value>>

  /** `$this->file_path_configs`: file path => item type => last key registered. */
  type FileTable = map<string, map<Key, Value>>

  /** `apply_filters('pods_config_register_custom_item', $item, $item_type, $file_path)`. */
  type ItemFilter = (Value, Key, string) -> Value

  /** The in-memory registry the class keeps in its fields. */
  datatype Tables = Tables(
    pods: PodTable,
    templates: map<Key, Value>,
    pages: map<Key, Value>,
    helpers: map<Key, Value>,
    customConfigs: map<Key, map<Key, Value>>,
    filePathConfigs: FileTable)

  /** The three item types that are filed by name alone. */
  datatype Kind = Templates | Pages | Helpers

  function KindKey(kind: Kind): Key {
    match kind
    case Templates => K("templates")
    case Pages => K("pages")
    case Helpers => K("helpers")
  }

  function Named(t: Tables, kind: Kind): map<Key, Value> {
    match kind
    case Templates => t.templates
    case Pages => t.pages
    case Helpers => t.helpers
  }

  function WithNamed(t: Tables, kind: Kind, m: map<Key, Value>): Tables {
    match kind
    case Templates => t.(templates := m)
    case Pages => t.(pages := m)
    case Helpers => t.(helpers := m)
  }

  // ---------------------------------------------------------------------
  // Shared pieces

  /** `$this->file_path_configs[$file][$slot] = $v`. */
  function Note(fpc: FileTable, file: string, slot: Key, v: Value): FileTable {
    fpc[file := (if file in fpc then fpc[file] else map[])[slot := v]]
  }

  /** `fpc` and `fpc'` differ at most in the entry `slot` of `file`'s record. */
  ghost predicate OnlySlotChanged(fpc: FileTable, fpc': FileTable, file: string, slot: Key) {
    && fpc.Keys <= fpc'.Keys <= fpc.Keys + {file}
    && (forall f | f in fpc && f != file :: fpc'[f] == fpc[f])
    && (file in fpc' ==>
          var before := if file in fpc then fpc[file] else map[];
          && before.Keys <= fpc'[file].Keys <= before.Keys + {slot}
          && forall k | k in before && k != slot :: fpc'[file][k] == before[k])
  }

  lemma NoteOnlySlot(fpc: FileTable, file: string, slot: Key, v: Value)
    ensures OnlySlotChanged(fpc, Note(fpc, file, slot, v), file, slot)
  {
  }

  /** After the assignment, the slot of the file holds the value. */
  lemma NoteStores(fpc: FileTable, file: string, slot: Key, v: Value)
    ensures var r := Note(fpc, file, slot, v); file in r && slot in r[file] && r[file][slot] == v
  {
  }

  lemma OnlySlotChangedTrans(a: FileTable, b: FileTable, c: FileTable, file: string, slot: Key)
    requires OnlySlotChanged(a, b, file, slot) && OnlySlotChanged(b, c, file, slot)
    ensures OnlySlotChanged(a, c, file, slot)
  {
  }

  /** `if (isset($item['id'])) unset($item['id'])`. An `id` that is null is
      not set, so it stays. */
  function StripId(item: Value): (r: Value)
    ensures !IsSet(Get(r, "id"))
    ensures item.Arr? <==> r.Arr?
    ensures item.Arr? ==> forall k | k != K("id") :: Find(r.entries, k) == Find(item.entries, k)
  {
    if IsSet(Get(item, "id")) then Arr(Remove(item.entries, K("id"))) else item
  }

  /** `if (!isset($this->pods[$type])) $this->pods[$type] = []`, where an
      array used as key is an illegal offset and is skipped. */
  function OpenType(pods: PodTable, tk: Option<Key>): PodTable {
    if tk.Some? && tk.value !in pods then pods[tk.value := map[]] else pods
  }

  /** `$this->pods[$type][$name]`, null when missing. */
  function PodAt(pods: PodTable, tk: Option<Key>, nk: Option<Key>): Value {
    if tk.Some? && nk.Some? && tk.value in pods && nk.value in pods[tk.value]
    then pods[tk.value][nk.value] else Null
  }

  /** `$this->pods[$type][$name] = $v`; an illegal offset skips the write. */
  function PutPod(pods: PodTable, tk: Option<Key>, nk: Option<Key>, v: Value): PodTable {
    if tk.Some? && nk.Some? then
      var inner := if tk.value in pods then pods[tk.value] else map[];
      pods[tk.value := inner[nk.value := v]]
    else pods
  }

  /** `$this->pods[$type][$name]['fields'][$field] = $v`. */
  function PutField(pods: PodTable, tk: Option<Key>, nk: Option<Key>, fk: Option<Key>, v: Value): PodTable {
    if fk.Some? then
      var pod := PodAt(pods, tk, nk);
      var fields := if pod.Arr? then Lookup(pod.entries, "fields") else Null;
      PutPod(pods, tk, nk, WriteDim(pod, K("fields"), WriteDim(fields, fk.value, v)))
    else pods
  }

  // ---------------------------------------------------------------------
  // register_config_pods

  predicate PodAccepted(item: Value) {
    !Empty(Get(item, "type")) && !Empty(Get(item, "name"))
  }

  /** The slot `$this->pods[$item['type']][$item['name']]`. */
  function PodSlot(item: Value): (Option<Key>, Option<Key>) {
    (KeyOf(Get(item, "type")), KeyOf(Get(item, "name")))
  }

  /** A pod as it is filed: `id` unset, `fields` defaulting to an empty array. */
  function StoredPod(item: Value): (r: Value)
    requires item.Arr?
    ensures r.Arr? && !IsSet(Get(r, "id")) && Find(r.entries, K("fields")).Some?
    ensures Empty(Get(item, "fields")) ==> Get(r, "fields") == Arr([])
    ensures !Empty(Get(item, "fields")) ==> Get(r, "fields") == Get(item, "fields")
    ensures forall k | k != K("id") && k != K("fields") :: Find(r.entries, k) == Find(item.entries, k)
  {
    var s := StripId(item);
    if Empty(Get(s, "fields")) then WriteDim(s, K("fields"), Arr([])) else s
  }

  /** One iteration of the loop in register_config_pods. */
  function PodStep(t: Tables, item: Value, file: string): Tables {
    if !PodAccepted(item) then t
    else
      var ty, nm := Get(item, "type"), Get(item, "name");
      var pods := OpenType(t.pods, KeyOf(ty));
      t.(pods := PutPod(pods, KeyOf(ty), KeyOf(nm), StoredPod(item)),
         filePathConfigs := Note(t.filePathConfigs, file, K("pods"), Str(ToStr(ty) + ":" + ToStr(nm))))
  }

  function PodsSpec(t: Tables, items: seq<Entry>, file: string): Tables
    decreases |items|
  {
    if |items| == 0 then t
    else PodStep(PodsSpec(t, items[..|items| - 1], file), items[|items| - 1].val, file)
  }

  // ---------------------------------------------------------------------
  // register_config_fields

  predicate FieldAccepted(item: Value) {
    && !Empty(Get(item, "type")) && !Empty(Get(item, "name"))
    && !Empty(Get(Get(item, "pod"), "name")) && !Empty(Get(Get(item, "pod"), "type"))
  }

  /** `if (isset($item['pod']['id'])) unset($item['pod']['id'])`. */
  function StripPodId(item: Value): Value {
    var pod := Get(item, "pod");
    if IsSet(Get(pod, "id")) then Arr(Store(item.entries, K("pod"), StripId(pod))) else item
  }

  /** Unsetting the pod's `id` changes the item's `pod` and nothing the
      registration reads from it. */
  lemma StripPodIdKeepsSlot(item: Value)
    requires item.Arr?
    ensures Get(StripPodId(item), "pod") == StripId(Get(item, "pod"))
    ensures Get(StripPodId(item), "name") == Get(item, "name")
    ensures Get(StripId(Get(item, "pod")), "type") == Get(Get(item, "pod"), "type")
    ensures Get(StripId(Get(item, "pod")), "name") == Get(Get(item, "pod"), "name")
  {
  }

  /** The field as it is filed: its own `id` and its pod's `id` unset. */
  function StoredField(item: Value): Value {
    StripId(StripPodId(item))
  }

  /** The key the "already registered?" guards look up in `$this->pods`:
      `$item['pod']['type'][$item['pod']['name']]`, which indexes the pod
      TYPE with the pod name (a string offset when the type is a string). */
  function GuardSlot(podType: Value, podName: Value): Option<Key> {
    KeyOf(ReadDim(podType, podName))
  }

  /** `isset($this->pods[$guard])`. */
  predicate GuardHit(pods: PodTable, guard: Option<Key>) {
    guard.Some? && guard.value in pods
  }

  /** `isset($this->pods[$guard]['fields'])`: a pod NAMED 'fields' under the
      guard key. */
  predicate GuardFieldsHit(pods: PodTable, guard: Option<Key>) {
    guard.Some? && guard.value in pods && K("fields") in pods[guard.value]
    && IsSet(pods[guard.value][K("fields")])
  }

  /** Before the field itself is filed: open the pod type, file the item's
      pod unless the guard key is a registered pod type, then give the pod
      an empty `fields` unless the guard key holds a pod named 'fields'. */
  function PrepareFieldPod(pods: PodTable, pod: Value, guard: Option<Key>): PodTable {
    var tk, nk := KeyOf(Get(pod, "type")), KeyOf(Get(pod, "name"));
    var pods1 := OpenType(pods, tk);
    var pods2 := if !GuardHit(pods1, guard) then PutPod(pods1, tk, nk, pod) else pods1;
    if !GuardFieldsHit(pods2, guard)
    then PutPod(pods2, tk, nk, WriteDim(PodAt(pods2, tk, nk), K("fields"), Arr([])))
    else pods2
  }

  /** One iteration of the loop in register_config_fields. */
  function FieldStep(t: Tables, item: Value, file: string): Tables {
    if !FieldAccepted(item) then t
    else
      var pod := StripId(Get(item, "pod"));
      var pt, pn, nm := Get(pod, "type"), Get(pod, "name"), Get(item, "name");
      var pods := PrepareFieldPod(t.pods, pod, GuardSlot(pt, pn));
      t.(pods := PutField(pods, KeyOf(pt), KeyOf(pn), KeyOf(nm), StoredField(item)),
         filePathConfigs := Note(t.filePathConfigs, file, K("pods"),
                                 Str(ToStr(pt) + ":" + ToStr(pn) + ":" + ToStr(nm))))
  }

  function FieldsSpec(t: Tables, items: seq<Entry>, file: string): Tables
    decreases |items|
  {
    if |items| == 0 then t
    else FieldStep(FieldsSpec(t, items[..|items| - 1], file), items[|items| - 1].val, file)
  }

  // ---------------------------------------------------------------------
  // register_config_templates / _pages / _helpers

  /** One iteration of the loop in register_config_templates (pages, helpers). */
  function NamedStep(t: Tables, kind: Kind, item: Value, file: string): Tables {
    var nm := Get(item, "name");
    if Empty(nm) then t
    else
      var m := Named(t, kind);
      var m' := if KeyOf(nm).Some? then m[KeyOf(nm).value := StripId(item)] else m;
      WithNamed(t, kind, m').(filePathConfigs := Note(t.filePathConfigs, file, KindKey(kind), nm))
  }

  function NamedSpec(t: Tables, kind: Kind, items: seq<Entry>, file: string): Tables
    decreases |items|
  {
    if |items| == 0 then t
    else NamedStep(NamedSpec(t, kind, items[..|items| - 1], file), kind, items[|items| - 1].val, file)
  }

  // ---------------------------------------------------------------------
  // register_config_custom_item_type

  /** `if (!isset($this->custom_configs[$item_type])) $this->custom_configs[$item_type] = []`. */
  function OpenCustom(t: Tables, itemType: Key): Tables {
    if itemType in t.customConfigs then t
    else t.(customConfigs := t.customConfigs[itemType := map[]])
  }

  /** One iteration of the loop in register_config_custom_item_type; the
      registered filter may rewrite the item first. */
  function CustomStep(t: Tables, itemType: Key, item: Value, file: string, filter: ItemFilter): Tables {
    var it := filter(item, itemType, file);
    var nm := Get(it, "name");
    if Empty(nm) then t
    else
      var m := if itemType in t.customConfigs then t.customConfigs[itemType] else map[];
      var m' := if KeyOf(nm).Some? then m[KeyOf(nm).value := StripId(it)] else m;
      t.(customConfigs := t.customConfigs[itemType := m'],
         filePathConfigs := Note(t.filePathConfigs, file, itemType, nm))
  }

  function CustomLoop(t: Tables, itemType: Key, items: seq<Entry>, file: string, filter: ItemFilter): Tables
    decreases |items|
  {
    if |items| == 0 then t
    else CustomStep(CustomLoop(t, itemType, items[..|items| - 1], file, filter), itemType, items[|items| - 1].val, file, filter)
  }

  function CustomSpec(t: Tables, itemType: Key, items: seq<Entry>, file: string, filter: ItemFilter): Tables {
    CustomLoop(OpenCustom(t, itemType), itemType, items, file, filter)
  }

  // ---------------------------------------------------------------------
  // register_config

  /** A top-level group `$item_type => $items` that register_config passes
      over: empty or not an array, or, when the file config names an item
      type, keyed by neither that item type nor 'pods' (strict comparison). */
  predicate GroupSkipped(g: Entry, fileItemType: Value) {
    || Empty(g.val) || !g.val.Arr?
    || (!Empty(fileItemType) && fileItemType != KeyValue(g.key) && fileItemType != Str("pods"))
  }

  /** `if (!isset($this->file_path_configs[$file][$item_type])) ... = []`. */
  function OpenSlot(fpc: FileTable, file: string, slot: Key): FileTable {
    if file in fpc && slot in fpc[file] && IsSet(fpc[file][slot]) then fpc
    else Note(fpc, file, slot, Arr([]))
  }

  /** One iteration of the loop in register_config: dispatch on the group key. */
  function GroupStep(t: Tables, g: Entry, file: string, fileItemType: Value, filter: ItemFilter): Tables {
    if GroupSkipped(g, fileItemType) then t
    else
      var t1 := t.(filePathConfigs := OpenSlot(t.filePathConfigs, file, g.key));
      var items := g.val.entries;
      if g.key == K("pods") then PodsSpec(t1, items, file)
      else if g.key == K("fields") then FieldsSpec(t1, items, file)
      else if g.key == K("templates") then NamedSpec(t1, Templates, items, file)
      else if g.key == K("pages") then NamedSpec(t1, Pages, items, file)
      else if g.key == K("helpers") then NamedSpec(t1, Helpers, items, file)
      else CustomSpec(t1, g.key, items, file, filter)
  }

  function GroupsSpec(t: Tables, groups: seq<Entry>, file: string, fileItemType: Value, filter: ItemFilter): Tables
    decreases |groups|
  {
    if |groups| == 0 then t
    else GroupStep(GroupsSpec(t, groups[..|groups| - 1], file, fileItemType, filter), groups[|groups| - 1], file, fileItemType, filter)
  }

  /** `if (!isset($this->file_path_configs[$file])) $this->file_path_configs[$file] = []`. */
  function OpenFile(t: Tables, file: string): Tables {
    if file in t.filePathConfigs then t
    else t.(filePathConfigs := t.filePathConfigs[file := map[]])
  }

  /** register_config($config, $file_path, $file_config). */
  function ConfigSpec(t: Tables, config: seq<Entry>, file: string, fileConfig: seq<Entry>, filter: ItemFilter): Tables {
    GroupsSpec(OpenFile(t, file), config, file, Lookup(fileConfig, "item_type"), filter)
  }
}
