# Pods config registry of MybiznaPodsMigration

This project models the in-memory config registry of the WordPress plugin
class `MybiznaPodsMigration`: the part that takes parsed `pods.json` /
`pods.yml` style configs and files them into the object's tables, without
touching the database or the Pods API. It covers five pieces.

- **Registration lists.** `register_config_type`, `register_config_item_type`
  and `register_path`, with their `unregister_*` counterparts, keep PHP
  arrays used as ordered sets. The model keeps them as duplicate-free
  sequences (`Paths.Insert`, `Paths.Delete`). The class invariant `Valid`
  says the three lists hold no duplicates, as PHP's one-entry-per-key
  arrays do; it is what makes an unregistration remove exactly one entry
  (`Paths.DeleteShortens`). Type names go through
  sanitize_title and then have `/` and the directory separator replaced
  by `-`. Paths get a trailing slash and then, unless they already start
  with ABSPATH, the ABSPATH prefix.
- **`get_file_configs`** lists the candidate file names for every pair of
  config type and item type (`FileConfigs.Grid`).
- **`register_config`** and its helpers `register_config_pods`, `_fields`,
  `_templates`, `_pages`, `_helpers` and `_custom_item_type` file config
  items into `pods`, `templates`, `pages`, `helpers`, `custom_configs` and
  `file_path_configs`.
  - Each helper is one loop. `Registry.XStep` is one iteration of it, and
    `Registry.XSpec` the whole loop as a function of the registry before
    the call.
  - The class `Migration.PodsMigration` holds the PHP class's
    registration lists and registry tables as fields (`$wp_filesystem` is
    not modelled). ABSPATH, DIRECTORY_SEPARATOR, sanitize_title and the
    custom-item filter, which the PHP code takes from its environment, are
    constant fields set by the constructor.
  - It has one method for each of the registration methods, for
    `get_file_configs` and for each register method; `RegisterNamed` is
    the loop shared by the template, page and helper helpers.
    `pod_reshaping` and `relative_path`, which do not touch the object,
    are functions (`Reshaping.PodReshaping`, `Paths.RelativePath`). The
    setup, loading and saving methods are left out (see below).
  - Each method is proved, through its loop invariants, to leave the
    object in the state the matching function gives.
  - The lemmas in `RegistryProperties` state what the registry promises
    in terms of those functions.
- **`pod_reshaping`** fills in the `create_*` / `extend_*` parameters
  (`Reshaping.PodReshaping`).
- **`relative_path`** takes ABSPATH out of a path (`Paths.RelativePath`).

PHP values are modelled by the datatype `Php.Value`, with null, booleans,
integers, strings and ordered arrays. An array is an association list of
`Php.Entry`. The PHP 7.4 rules the code relies on are written out:

- `empty()`, and `isset()`, for which null counts as absent;
- array-key conversion: canonical integer strings become integer keys, a
  boolean becomes 0 or 1, null becomes `""`, and an array is an illegal
  key;
- the `.` string conversion;
- reading a string offset.

## Two quirks modelled as written

- **Lines 494 and 499.** The "already registered?" guards of
  `register_config_fields` test `$this->pods[$item['pod']['type'][$item['pod']['name']]]`,
  which indexes the pod **type** with the pod name.
  - When the type is a string, that is a string offset. For ordinary names
    it reads the type's first character (`RegistryProperties.GuardIsFirstChar`).
  - The guard therefore looks up a pod type named by that one character,
    and normally finds nothing.
  - The field item then replaces the whole pod entry with its own `pod`
    sub-array and empties its `fields`
    (`RegistryProperties.FieldResetsPod`).
  - So two fields registered one after the other for the same pod leave
    only the second (`RegistryProperties.SecondFieldDropsFirst`).
- **Lines 876-887.** `pod_reshaping` writes `isset($x) ?: $default`. The
  short ternary yields the condition, so a parameter that is already set
  becomes `true` rather than keeping its value. A pod reshaped twice has
  every parameter equal to `true` (`Reshaping.ReshapingTwiceSetsTrue`).

## Model

| member | source | states |
|---|---|---|
| Php.Find | MybiznaPodsMigration.php:446 | `$a[$k]` on an ordered array, looked up from the front; stated by FindFirst |
| Php.FindFirst | MybiznaPodsMigration.php:462 | reading `$a[$k]` gives null-as-absent exactly when no entry has key k, and otherwise the value of the first entry with that key |
| Php.Store | MybiznaPodsMigration.php:462 | after `$a[$k] = $v` the key k reads v and every other key reads as before; a new key is appended at the end |
| Php.StoreTwice | MybiznaPodsMigration.php:462 | assigning the same key twice is the same as assigning only the second value, in the first assignment's position |
| Php.Remove | MybiznaPodsMigration.php:454-456 | after `unset($a[$k])` the key k is absent and every other key reads as before |
| Php.Get | MybiznaPodsMigration.php:446 | `$v['name']` inside empty()/isset() is null unless v is an array |
| Php.KeyOf | MybiznaPodsMigration.php:462 | the key PHP files a value under: canonical integer strings and integers give integer keys, true/false give 1/0, null gives "", an array gives no key; IntStringSameKey states the integer-string case |
| Php.Empty | MybiznaPodsMigration.php:398 | `empty()`: null, false, 0, "", "0" and the empty array are empty, everything else is not |
| Php.IsSet | MybiznaPodsMigration.php:393 | `isset()`: a value counts as set exactly when it is present and not null |
| Php.Digits | MybiznaPodsMigration.php:464 | the decimal form PHP prints for a natural number: non-empty, digits only, no leading zero |
| Php.DigitsRoundTrip | MybiznaPodsMigration.php:464 | reading back the printed digits of n gives n |
| Php.IntStringSameKey | MybiznaPodsMigration.php:462 | an integer and its decimal string select the same array slot |
| Php.StringKey | MybiznaPodsMigration.php:462 | a string key becomes an integer key exactly when `IsIntString` holds (canonical decimal form, no leading zero, no "-0", inside the 64-bit range), and that integer prints back as the string; any other string stays a string key unchanged |
| Php.IntStringRoundTrip | MybiznaPodsMigration.php:462 | a string PHP reads as an integer key is that integer's decimal string |
| Php.ValueRoundTrip | MybiznaPodsMigration.php:462 | helper: a digit string without a leading zero is the decimal form of its value |
| Php.LeadingNonZeroPositive | MybiznaPodsMigration.php:462 | helper: a digit string without a leading zero denotes at least 1 |
| Php.ToStr | MybiznaPodsMigration.php:464 | the `.` conversion: null and false give the empty string, and an integer gives a string that PHP files under that same integer key |
| Php.KeyValue | MybiznaPodsMigration.php:397-409 | the `$item_type` a foreach binds is its key as a value; for an integer key or a non-numeric string key, using that value as a key selects the same key again |
| Php.LeadingDigits | MybiznaPodsMigration.php:494 | the leading run of digits of a string, the part PHP's (int) cast reads |
| Php.CastInt | MybiznaPodsMigration.php:494 | `(int)` of a string: white space skipped, an optional sign, then the leading digits; zero when there are none |
| Php.OffsetInt | MybiznaPodsMigration.php:494 | the integer a value gives as a string offset: null and false 0, true 1, an integer itself, a string its integer value or cast, an array 0 when empty and 1 otherwise; SpacedNameIsOffset and StringOffsetReadsFirstChar state its string cases |
| Php.SkipSpace | MybiznaPodsMigration.php:494 | the result is a suffix of the string, every dropped character is white space, and it does not start with white space |
| Php.ReadDim | MybiznaPodsMigration.php:494 | `$base[$off]` on a string gives a string of at most one character, its first character when the offset is 0; on a value that is neither array nor string it gives null |
| Php.WriteDim | MybiznaPodsMigration.php:500 | `$v[$k] = $x` on an array, null or false gives an array in which k reads x and other keys are kept; other scalars are left as they are |
| Php.Writable | MybiznaPodsMigration.php:500 | the values a nested write can put a key into: arrays, and null and false, which become arrays; WriteDim states what happens to each |
| Php.StringOffsetReadsFirstChar | MybiznaPodsMigration.php:494 | a non-empty string indexed by a name that does not start with a digit or sign reads its first character |
| Php.SpacedNameIsOffset | MybiznaPodsMigration.php:494 | a name of one white-space character and digits is read as the numeric string offset those digits give |
| Paths.Insert | MybiznaPodsMigration.php:155 | `$list[$x] = $x` makes x a member, adds nothing else, and keeps the list free of duplicates |
| Paths.Delete | MybiznaPodsMigration.php:170-172 | unsetting x removes exactly x, keeps the other members and keeps the list free of duplicates |
| Paths.DeleteAbsent | MybiznaPodsMigration.php:170-172 | unregistering a key that is not registered changes nothing |
| Paths.DeleteShortens | MybiznaPodsMigration.php:170-172 | in a duplicate-free list, unregistering a registered key removes exactly one entry |
| Paths.DeleteAppend | MybiznaPodsMigration.php:170-172 | removing a key from a concatenation removes it from each part |
| Paths.DeleteAfterInsert | MybiznaPodsMigration.php:214-243 | registering then unregistering a key leaves what unregistering alone would have left |
| Paths.InsertTwice | MybiznaPodsMigration.php:214-223 | registering the same key twice is the same as registering it once |
| Paths.InsertAfterDelete | MybiznaPodsMigration.php:214-243 | registering a key again after unregistering it puts it at the end |
| Paths.DashSeparators | MybiznaPodsMigration.php:153 | `str_replace(['/', DIRECTORY_SEPARATOR], '-', $s)` replaces each separator by `-` and keeps every other character |
| Paths.TypeKey | MybiznaPodsMigration.php:152-153 | a registered config (item) type contains neither `/` nor the directory separator |
| Paths.TrimTrailingSlashes | MybiznaPodsMigration.php:216 | rtrim of slashes returns a prefix that does not end in a slash, and only slashes were cut |
| Paths.TrailingSlashIt | MybiznaPodsMigration.php:216 | trailingslashit is the input with its trailing slashes replaced by exactly one `/`: the rest is a prefix of the input, and what it drops is slashes |
| Paths.NormalizePath | MybiznaPodsMigration.php:216-220 | the path key ends in `/` and starts with ABSPATH, and it is prefixed exactly when the slash-terminated path does not already start with ABSPATH (`0 !== strpos(...)` at line 218 is `!StartsWith`) |
| Paths.RemoveAll | MybiznaPodsMigration.php:895 | `str_replace($needle, '', $s)` never makes the string longer |
| Paths.RemoveAllAbsent | MybiznaPodsMigration.php:895 | taking out a needle that does not occur leaves the string unchanged |
| Paths.RelativePath | MybiznaPodsMigration.php:893-899 | relative_path removes every occurrence of ABSPATH from the path; its properties are RemoveAllAbsent, RelativeOfNormalized and RelativeOfPrefixed |
| Paths.RelativeOfNormalized | MybiznaPodsMigration.php:214-223 | relative_path of a key that register_path prefixed gives back the slash-terminated path, when ABSPATH does not occur in it |
| Paths.RelativeOfPrefixed | MybiznaPodsMigration.php:214-223 | relative_path of a key that already started with ABSPATH gives back the rest, when ABSPATH does not occur in it |
| FileConfigs.Row | MybiznaPodsMigration.php:258-284 | the inner loop of get_file_configs for one config type: per item type, the bare entry then the `pods/` entry. `BareFile` is the `item_type.config_type` name of line 266, `Bare` the entry of lines 268-273 (theme support only for the `pods` item type) and `Themed` the `pods/` entry of lines 276-283 (always theme support); stated by RowAt and RowLength |
| FileConfigs.Grid | MybiznaPodsMigration.php:252-288 | the result of get_file_configs, config type outer and item type inner; stated by GridAt, GridLength and GridThemeSupport |
| FileConfigs.RowAt | MybiznaPodsMigration.php:255-285 | for one config type, item type j yields its bare entry at 2j and its `pods/` entry at 2j+1 |
| FileConfigs.RowLength | MybiznaPodsMigration.php:255-285 | one config type yields two entries per item type |
| FileConfigs.GridLength | MybiznaPodsMigration.php:252-288 | get_file_configs returns 2 × config types × item types entries |
| FileConfigs.GridAt | MybiznaPodsMigration.php:252-288 | pair (i, j) sits at 2(i·m + j) as `item.type`, followed by `pods/item.type`, config type outer and item type inner, each entry carrying the pair's type and item type |
| FileConfigs.GridThemeSupport | MybiznaPodsMigration.php:259-283 | for every pair, the `pods/` entry supports themes and is the bare entry's file under `pods/`; the bare entry supports themes exactly when the item type is 'pods'; both carry the pair's config type and item type |
| Registry.NoteOnlySlot | MybiznaPodsMigration.php:464 | recording the last key of a file changes only that file's entry for that slot |
| Registry.NoteStores | MybiznaPodsMigration.php:464 | `Note`, the assignment `$this->file_path_configs[$file][$slot] = $v` used at lines 464, 509, 536, 563, 590 and 635, leaves the value in that slot; NoteOnlySlot states that nothing else changes |
| Registry.OnlySlotChangedTrans | MybiznaPodsMigration.php:444-465 | changes confined to one slot compose |
| Registry.OpenType | MybiznaPodsMigration.php:485-487 | `if (!isset($this->pods[$type])) $this->pods[$type] = []`, an illegal key skipped; PrepareResetsPod states the keys it leaves |
| Registry.PodAt | MybiznaPodsMigration.php:462 | `$this->pods[$type][$name]`, null when missing; PodsLastAt and PodsUntouched state what it reads after a registration |
| Registry.PutPod | MybiznaPodsMigration.php:462 | `$this->pods[$type][$name] = $v`, skipped on an illegal key; PodsLastAt and PutPodKeepsShape state its effect |
| Registry.PutField | MybiznaPodsMigration.php:507 | `$this->pods[$type][$name]['fields'][$field] = $v`; PutFieldAt states when it lands |
| Registry.PodAccepted | MybiznaPodsMigration.php:446-448 | an item with a non-empty `type` and `name`; PodsSkipsRejected states that the others are passed over |
| Registry.PodStep | MybiznaPodsMigration.php:444-465 | one iteration of register_config_pods; stated by PodsLastAt, PodsLastElsewhere and PodStepFrame |
| Registry.PodsSpec | MybiznaPodsMigration.php:442-467 | register_config_pods as a function of the registry before the call; stated by the Pods lemmas below |
| Registry.FieldAccepted | MybiznaPodsMigration.php:481-483 | a field item with non-empty `type`, `name`, `pod.name` and `pod.type`; FieldsSkipsRejected states that the others are passed over |
| Registry.StripPodId | MybiznaPodsMigration.php:489-491 | unsetting a set `id` of the item's `pod`; StripPodIdKeepsSlot states what it keeps |
| Registry.StoredField | MybiznaPodsMigration.php:503-507 | the field as filed, its own `id` and its pod's `id` unset; FieldStepStoresField states where it lands |
| Registry.GuardSlot | MybiznaPodsMigration.php:494 | the key the "already registered?" guards look up: the pod type indexed by the pod name; stated by GuardIsFirstChar |
| Registry.GuardHit | MybiznaPodsMigration.php:494 | `isset($this->pods[$guard])`; PrepareResetsPod and PrepareKeepsPod state both outcomes |
| Registry.GuardFieldsHit | MybiznaPodsMigration.php:499 | `isset($this->pods[$guard]['fields'])`, a pod named `fields` under the guard key; PrepareKeepsPod states both outcomes |
| Registry.PrepareFieldPod | MybiznaPodsMigration.php:485-501 | the opening of the pod type and the two guarded resets of register_config_fields; stated by PrepareResetsPod and PrepareKeepsPod |
| Registry.FieldStep | MybiznaPodsMigration.php:479-510 | one iteration of register_config_fields; stated by FieldStepStoresField, FieldResetsPod and FieldStepFrame |
| Registry.FieldsSpec | MybiznaPodsMigration.php:477-512 | register_config_fields as a function of the registry before the call; stated by the Fields lemmas below |
| Registry.NamedStep | MybiznaPodsMigration.php:524-537 | one iteration of register_config_templates, _pages or _helpers; stated by NamedStepFrame |
| Registry.NamedSpec | MybiznaPodsMigration.php:522-593 | the loop of register_config_templates, _pages or _helpers; stated by the Named lemmas below |
| Registry.OpenCustom | MybiznaPodsMigration.php:606-608 | `if (!isset($this->custom_configs[$item_type])) ... = []`; OpenCustomFrame states its effect |
| Registry.CustomStep | MybiznaPodsMigration.php:621-635 | one filtered item of register_config_custom_item_type; stated by CustomStepFrame and CustomStepFileFrame |
| Registry.CustomLoop | MybiznaPodsMigration.php:610-636 | the loop of register_config_custom_item_type once the table is open; stated by CustomLoopFrame and CustomLoopFileFrame |
| Registry.CustomSpec | MybiznaPodsMigration.php:604-637 | register_config_custom_item_type as a function of the registry before the call; stated by the Custom lemmas below |
| Registry.GroupSkipped | MybiznaPodsMigration.php:398-411 | a group that is empty or not an array, or, when the file config names an item type, keyed by neither it nor 'pods' (strict comparison); Relevant and GroupsIgnoreSkipped state that such groups do nothing |
| Registry.OpenSlot | MybiznaPodsMigration.php:414-416 | `if (!isset($this->file_path_configs[$file][$item_type])) ... = []`, run by GroupStep for every group that is not skipped |
| Registry.GroupStep | MybiznaPodsMigration.php:397-431 | one group of register_config: skipped, or its per-file entry opened and its helper run; stated by GroupsIgnoreSkipped |
| Registry.GroupsSpec | MybiznaPodsMigration.php:397-431 | the loop of register_config over the groups; stated by GroupsIgnoreSkipped |
| Registry.OpenFile | MybiznaPodsMigration.php:393-395 | `if (!isset($this->file_path_configs[$file])) ... = []`; NothingRelevantOnlyOpensFile states that a config of skipped groups does only this |
| Registry.ConfigSpec | MybiznaPodsMigration.php:391-432 | register_config: open the file's record, then the groups; stated by NothingRelevantOnlyOpensFile |
| Registry.StripId | MybiznaPodsMigration.php:454-456 | after unsetting a set `id`, `id` is not set and every other key reads as before |
| Registry.StoredPod | MybiznaPodsMigration.php:454-462 | a filed pod is an array without a set `id` whose `fields` is present, `[]` when the item's was empty and the item's own otherwise, with every other key as in the item |
| Registry.StripPodIdKeepsSlot | MybiznaPodsMigration.php:489-491 | unsetting the pod's `id` replaces the item's `pod` by the stripped pod and leaves the names the registration reads unchanged |
| RegistryProperties.PodsSkipsRejected | MybiznaPodsMigration.php:446-448 | items with an empty `type` or `name` leave the registry unchanged |
| RegistryProperties.PodsLastAt | MybiznaPodsMigration.php:462 | an accepted last item is filed, as its stored pod, at its (type, name) slot |
| RegistryProperties.PodsLastElsewhere | MybiznaPodsMigration.php:446-462 | a last item that is rejected or aimed at another slot leaves a slot as it was |
| RegistryProperties.PodsLastWins | MybiznaPodsMigration.php:442-467 | the pod filed under (type, name) is the last accepted item with that slot, stored as StoredPod states |
| RegistryProperties.PodsUntouched | MybiznaPodsMigration.php:442-467 | a (type, name) slot that no accepted item aims at keeps what it held before the call |
| RegistryProperties.PodsRecordsLast | MybiznaPodsMigration.php:464 | the file's 'pods' entry ends as "type:name" of the last accepted item |
| RegistryProperties.PodStepFrame | MybiznaPodsMigration.php:444-465 | one item changes only `pods` and the file's 'pods' entry |
| RegistryProperties.PodsFrame | MybiznaPodsMigration.php:442-467 | register_config_pods changes only `pods` and the file's 'pods' entry |
| RegistryProperties.PutPodKeepsShape | MybiznaPodsMigration.php:462 | filing a pod without a set `id` and with `fields` keeps every filed pod in that shape |
| RegistryProperties.PodStepKeepsShape | MybiznaPodsMigration.php:444-465 | one item keeps every filed pod without a set `id` and with `fields` |
| RegistryProperties.PodsKeepShape | MybiznaPodsMigration.php:454-462 | if every filed pod lacks a set `id` and has `fields`, that stays true after register_config_pods |
| RegistryProperties.FieldsSkipsRejected | MybiznaPodsMigration.php:481-483 | items missing `type`, `name`, `pod.name` or `pod.type` leave the registry unchanged |
| RegistryProperties.PrepareResetsPod | MybiznaPodsMigration.php:485-501 | when the guard key is not a pod type, the slot gets the item's pod with `fields` emptied, and no pod type is added beyond the item's own |
| RegistryProperties.PrepareKeepsPod | MybiznaPodsMigration.php:485-501 | when the guard key is a pod type, the pod already filed stays, with `fields` emptied unless that type holds a pod named 'fields' |
| RegistryProperties.PutFieldAt | MybiznaPodsMigration.php:507 | the nested field write lands when the slot holds nothing yet (null or false) or an array whose `fields` can take elements |
| RegistryProperties.FieldPodKeys | MybiznaPodsMigration.php:489-495 | the stripped pod of an accepted field item is an array with the item's pod type and name |
| RegistryProperties.FieldStepStoresField | MybiznaPodsMigration.php:485-509 | after an accepted item, `pods[pod.type][pod.name].fields[name]` is the item without its own and its pod's `id`, and the file's 'pods' entry is "podtype:podname:name"; when the guard hits, the filed pod must be writable, and its `fields` too only when line 499 resets nothing |
| RegistryProperties.GuardIsFirstChar | MybiznaPodsMigration.php:494 | for ordinary names the guards look up the pod type's first character as a key |
| RegistryProperties.FieldResetsPod | MybiznaPodsMigration.php:494-507 | when the guard key is not a pod type, the pod entry becomes the item's pod whose `fields` hold only this field |
| RegistryProperties.FieldsTwo | MybiznaPodsMigration.php:479 | helper for SecondFieldDropsFirst: two field items are processed one after the other, in order |
| RegistryProperties.SecondFieldDropsFirst | MybiznaPodsMigration.php:477-512 | two fields of the same pod registered one after the other leave only the second in its `fields` |
| RegistryProperties.FieldStepFrame | MybiznaPodsMigration.php:479-510 | one field item changes only `pods` and the file's 'pods' entry |
| RegistryProperties.FieldsFrame | MybiznaPodsMigration.php:477-512 | register_config_fields changes only `pods` and the file's 'pods' entry |
| RegistryProperties.NamedLastWins | MybiznaPodsMigration.php:522-593 | templates, pages and helpers are keyed by name, with the last item of a name winning, `id` unset |
| RegistryProperties.NamedUntouched | MybiznaPodsMigration.php:522-593 | a name that no item carries keeps its earlier entry, or stays absent |
| RegistryProperties.NamedRecordsLast | MybiznaPodsMigration.php:536 | the file's per-kind entry holds the name of the last accepted item |
| RegistryProperties.NamedStepFrame | MybiznaPodsMigration.php:524-537 | one item changes only the kind's own table and the file's per-kind entry, and a nameless item changes nothing |
| RegistryProperties.NamedFrame | MybiznaPodsMigration.php:522-593 | only the kind's own table and the file's per-kind entry change, and nameless items change nothing |
| RegistryProperties.CustomLastWins | MybiznaPodsMigration.php:604-637 | `custom_configs[type][name]` is the last filtered item with that name, `id` unset |
| RegistryProperties.CustomUntouched | MybiznaPodsMigration.php:604-637 | a name that no filtered item carries keeps its earlier entry in the item type's table, or stays absent |
| RegistryProperties.CustomSkipsNameless | MybiznaPodsMigration.php:621-627 | items the filter leaves without a name change nothing; only the item type's table is opened |
| RegistryProperties.CustomRecordsLast | MybiznaPodsMigration.php:635 | the file's entry for the item type holds the name of the last item left with a name |
| RegistryProperties.CustomStepFrame | MybiznaPodsMigration.php:610-635 | one item changes only its item type's table and the file's entry for that item type |
| RegistryProperties.CustomStepFileFrame | MybiznaPodsMigration.php:635 | of `file_path_configs`, one item changes only the file's entry for the item type |
| RegistryProperties.CustomLoopFrame | MybiznaPodsMigration.php:610-636 | once the table is open, the loop changes no table but the item type's own, and adds no item type |
| RegistryProperties.CustomLoopFileFrame | MybiznaPodsMigration.php:610-636 | the loop changes only the file's entry for the item type in `file_path_configs` |
| RegistryProperties.OpenCustomFrame | MybiznaPodsMigration.php:606-608 | opening the item type's table adds that key and leaves every other table as it was |
| RegistryProperties.CustomFrame | MybiznaPodsMigration.php:604-637 | the item type's table is opened, every other item type's table and every other registry table stays as it was |
| RegistryProperties.CustomFileFrame | MybiznaPodsMigration.php:604-637 | of `file_path_configs` only the file's entry for the item type changes |
| RegistryProperties.Relevant | MybiznaPodsMigration.php:397-411 | the groups register_config acts on are exactly the config's groups that are not skipped |
| RegistryProperties.RelevantOne | MybiznaPodsMigration.php:397-411 | a single group is kept exactly when it is not skipped |
| RegistryProperties.RelevantAppend | MybiznaPodsMigration.php:397 | the groups are taken in config order: filtering a concatenation concatenates the filtered parts |
| RegistryProperties.GroupsIgnoreSkipped | MybiznaPodsMigration.php:397-411 | register_config acts as if empty, non-array and foreign groups were not in the config |
| RegistryProperties.NothingRelevantOnlyOpensFile | MybiznaPodsMigration.php:391-432 | a config whose groups are all skipped only opens the file's record |
| RegistryProperties.NoneRelevant | MybiznaPodsMigration.php:397-411 | when every group is skipped, none is acted on |
| Reshaping.SourceOr | MybiznaPodsMigration.php:864-872 | the source key's value when set, otherwise the fixed default; ReshapingResult states it for every parameter |
| Reshaping.FillAll | MybiznaPodsMigration.php:876-887 | the parameter assignments one after the other; FillAllFrame and FillAllTargets state their effect |
| Reshaping.PodReshaping | MybiznaPodsMigration.php:858-891 | pod_reshaping: set `create_extend`, then the eleven parameters in source order (the target/source/default triples of `Reshapes`, lines 864-887); stated by ReshapingResult |
| Reshaping.FillAllFrame | MybiznaPodsMigration.php:876-887 | keys that are not parameters are not changed by the assignments |
| Reshaping.FillAllTargets | MybiznaPodsMigration.php:876-887 | with distinct parameter keys, each parameter ends as its own assignment left it |
| Reshaping.ReshapesDistinct | MybiznaPodsMigration.php:876-887 | the eleven parameter keys are distinct and none is `create_extend` |
| Reshaping.ReshapingResult | MybiznaPodsMigration.php:858-891 | `create_extend` is the action name; each parameter (`Filled`, the short ternary `(isset(...)) ?:` of lines 876-887) is true when already set, else its source key's value when set, else its default (`type` → 'post_type', `post_type` → 'post', `taxonomy` → 'category', `storage` → 'meta', otherwise ''); every other key is unchanged |
| Reshaping.DefaultActionIsCreate | MybiznaPodsMigration.php:858 | without an action name `create_extend` is 'create' |
| Reshaping.ReshapingTwiceSetsTrue | MybiznaPodsMigration.php:876-887 | reshaping an already reshaped pod makes every parameter true |
| Migration.PodsMigration.constructor | MybiznaPodsMigration.php:18-118 | the initial registration lists are json, yml and pods, fields, templates, pages, helpers, and the tables are empty |
| Migration.PodsMigration.RegisterConfigType | MybiznaPodsMigration.php:150-156 | the sanitized key is added to the config types, which stay free of duplicates |
| Migration.PodsMigration.UnregisterConfigType | MybiznaPodsMigration.php:165-173 | the sanitized key is removed from the config types, the others kept in order; a registered key shortens the list by exactly one |
| Migration.PodsMigration.RegisterConfigItemType | MybiznaPodsMigration.php:182-188 | the sanitized key is added to the item types, which stay free of duplicates |
| Migration.PodsMigration.UnregisterConfigItemType | MybiznaPodsMigration.php:197-205 | the sanitized key is removed from the item types, the others kept in order; a registered key shortens the list by exactly one |
| Migration.PodsMigration.RegisterPath | MybiznaPodsMigration.php:214-223 | the normalised path is registered, and nothing else is added |
| Migration.PodsMigration.UnregisterPath | MybiznaPodsMigration.php:232-243 | the normalised path is no longer registered, and every other path is registered exactly when it was before; a registered path shortens the list by exactly one |
| Migration.PodsMigration.GetFileConfigs | MybiznaPodsMigration.php:252-288 | the nested loops return Grid for the registered types, 2 × config types × item types entries |
| Migration.PodsMigration.RegisterConfigPods | MybiznaPodsMigration.php:442-467 | the loop leaves the registry as PodsSpec gives it |
| Migration.PodsMigration.RegisterConfigFields | MybiznaPodsMigration.php:477-512 | the loop leaves the registry as FieldsSpec gives it |
| Migration.PodsMigration.RegisterNamed | MybiznaPodsMigration.php:522-593 | the loop shared by templates, pages and helpers leaves the registry as NamedSpec gives it |
| Migration.PodsMigration.RegisterConfigTemplates | MybiznaPodsMigration.php:522-539 | register_config_templates is NamedSpec for templates |
| Migration.PodsMigration.RegisterConfigPages | MybiznaPodsMigration.php:549-566 | register_config_pages is NamedSpec for pages |
| Migration.PodsMigration.RegisterConfigHelpers | MybiznaPodsMigration.php:576-593 | register_config_helpers is NamedSpec for helpers |
| Migration.PodsMigration.RegisterConfigCustomItemType | MybiznaPodsMigration.php:604-637 | opening the item type's table and then the loop leave the registry as CustomSpec gives it |
| Migration.PodsMigration.RegisterConfig | MybiznaPodsMigration.php:391-432 | the dispatching loop leaves the registry as ConfigSpec gives it, and the registration lists untouched |

## Left out

- `check_migration_table` and `save_pods` are left out. They run SQL through `$wpdb`, hash configs with `md5(json_encode(...))` and persist through `pods('migration')`.
- `save_pod`, `save_group` and `save_field` are left out. They only pass data on to the PodsAPI methods, whose code is not part of this model.
- `pod_reshaping` creates a `PodsAPI` object that it never uses; that construction is left out.
- `setup`, `load_configs` and `load_config` are left out. They involve filesystem reads, theme directory lookups, the YAML and JSON parsers and the WordPress action and filter hooks. The items they would pass on are parameters of the register methods.
- `index.php` and `mybizna-pods-migration.php` are left out: plugin hooks, admin-bar UI, nonces, CSS and activation checks. Config.php is not part of this model.
- sanitize_title is left abstract: a function parameter of the class. The filter `pods_config_register_custom_item` is also a function parameter of the class. trailingslashit is modelled as rtrim of `/` and `\` followed by one `/`.
- ABSPATH and DIRECTORY_SEPARATOR are constructor parameters.
- The property `$wp_filesystem` is not modelled: no method reads it. The left-out `load_configs` and `check_migration_table` use the global of that name instead.
- Floating-point values are not modelled. A config that holds them cannot be expressed.
- `Php.Value`'s `Int` is unbounded. Only the integer-string key rule uses the 64-bit range.
- The order of the registry maps (`pods`, `templates`, ...) is not modelled: they are Dafny maps. Only the left-out `save_pods` observes that order. The registration lists, config items and pod arrays keep their order.
- Php.WriteDim does not model writing into a string, an integer or `true`. For those it leaves the value unchanged. PHP 7.4 writes a character into a string there, and warns and does nothing for `true` and integers.
- Php.LeadingDigits / Php.CastInt: the (int) cast of a string is modelled as leading white space, an optional sign and leading digits. Decimal and exponent forms (`"1.5"`, `"1e2"`) are not modelled. Php.StringOffsetReadsFirstChar and RegistryProperties.GuardIsFirstChar therefore state the first-character read only for names that do not start with a digit, a sign or white space.
- Php.ReadDim / Registry.GuardSlot: strings are modelled as sequences of characters, not of bytes. PHP's string offset reads one byte and counts negative offsets in bytes. So for a pod type that starts with a multi-byte character ("é..."), PHP's guard key is that character's first byte, while the model's is the whole character. The two agree on ASCII names.
- An illegal (array) key anywhere in a nested write cancels the whole write. PHP 7.4 warns and may still create the outer levels.
- PHP 8 behaviour is not modelled. There, the string offset of line 494 with a non-numeric name throws an error instead of reading the first character.
- Reshaping.PodReshaping takes the pod as an array. The source does not constrain the parameter, but its callers always pass arrays.
- Paths.RemoveAll is stated only as never lengthening the string, plus the no-occurrence and round-trip lemmas. No general characterisation of `str_replace` is proved.
