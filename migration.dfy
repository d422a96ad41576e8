/** The class MybiznaPodsMigration as far as its in-memory registry goes:
    the registration lists, the config tables, and the methods that fill
    them. Each method is proved to leave the object in the state the
    matching function of Registry, Paths or FileConfigs describes. */
module Migration {
  import opened Php
  import opened Registry
  import opened Paths
  import opened FileConfigs

  class PodsMigration {
    /** ABSPATH and DIRECTORY_SEPARATOR. */
    const absPath: string
    const dirSep: char
    /** WordPress's sanitize_title, and the filter hooked on
        'pods_config_register_custom_item'. */
    const sanitizeTitle: string -> string
    const filter: ItemFilter

    var registeredConfigTypes: seq<string>
    var registeredConfigItemTypes: seq<string>
    var registeredPaths: seq<string>

    var pods: PodTable
    var templates: map<Key, Value>
    var pages: map<Key, Value>
    var helpers: map<Key, Value>
    var customConfigs: map<Key, map<Key, Value>>
    var filePathConfigs: FileTable

    /** The config tables as one value. */
    function Snapshot(): Tables
      reads this
    {
      Tables(pods, templates, pages, helpers, customConfigs, filePathConfigs)
    }

    /** Each registration list holds a key at most once. */
    ghost predicate Valid()
      reads this`registeredConfigTypes, this`registeredConfigItemTypes, this`registeredPaths
    {
      && NoDuplicates(registeredConfigTypes)
      && NoDuplicates(registeredConfigItemTypes)
      && NoDuplicates(registeredPaths)
    }

    constructor(absPath: string, dirSep: char, sanitizeTitle: string -> string, filter: ItemFilter)
      ensures Valid()
      ensures this.absPath == absPath && this.dirSep == dirSep
      ensures this.sanitizeTitle == sanitizeTitle && this.filter == filter
      ensures registeredConfigTypes == ["json", "yml"]
      ensures registeredConfigItemTypes == ["pods", "fields", "templates", "pages", "helpers"]
      ensures registeredPaths == []
      ensures Snapshot() == Tables(map[], map[], map[], map[], map[], map[])
    {
      this.absPath := absPath;
      this.dirSep := dirSep;
      this.sanitizeTitle := sanitizeTitle;
      this.filter := filter;
      registeredConfigTypes := ["json", "yml"];
      registeredConfigItemTypes := ["pods", "fields", "templates", "pages", "helpers"];
      registeredPaths := [];
      pods, templates, pages, helpers := map[], map[], map[], map[];
      customConfigs, filePathConfigs := map[], map[];
    }

    // -------------------------------------------------------------------
    // Registration lists

    method RegisterConfigType(configType: string)
      requires Valid()
      modifies this`registeredConfigTypes
      ensures Valid()
      ensures registeredConfigTypes == Insert(old(registeredConfigTypes), TypeKey(sanitizeTitle, dirSep, configType))
    {
      var key := TypeKey(sanitizeTitle, dirSep, configType);
      registeredConfigTypes := Insert(registeredConfigTypes, key);
    }

    method UnregisterConfigType(configType: string)
      requires Valid()
      modifies this`registeredConfigTypes
      ensures Valid()
      ensures registeredConfigTypes == Delete(old(registeredConfigTypes), TypeKey(sanitizeTitle, dirSep, configType))
      ensures TypeKey(sanitizeTitle, dirSep, configType) in old(registeredConfigTypes) ==> |registeredConfigTypes| == |old(registeredConfigTypes)| - 1
    {
      var key := TypeKey(sanitizeTitle, dirSep, configType);
      if key in registeredConfigTypes {
        DeleteShortens(registeredConfigTypes, key);
        registeredConfigTypes := Delete(registeredConfigTypes, key);
      } else {
        DeleteAbsent(registeredConfigTypes, key);
      }
    }

    method RegisterConfigItemType(itemType: string)
      requires Valid()
      modifies this`registeredConfigItemTypes
      ensures Valid()
      ensures registeredConfigItemTypes == Insert(old(registeredConfigItemTypes), TypeKey(sanitizeTitle, dirSep, itemType))
    {
      var key := TypeKey(sanitizeTitle, dirSep, itemType);
      registeredConfigItemTypes := Insert(registeredConfigItemTypes, key);
    }

    method UnregisterConfigItemType(itemType: string)
      requires Valid()
      modifies this`registeredConfigItemTypes
      ensures Valid()
      ensures registeredConfigItemTypes == Delete(old(registeredConfigItemTypes), TypeKey(sanitizeTitle, dirSep, itemType))
      ensures TypeKey(sanitizeTitle, dirSep, itemType) in old(registeredConfigItemTypes) ==> |registeredConfigItemTypes| == |old(registeredConfigItemTypes)| - 1
    {
      var key := TypeKey(sanitizeTitle, dirSep, itemType);
      if key in registeredConfigItemTypes {
        DeleteShortens(registeredConfigItemTypes, key);
        registeredConfigItemTypes := Delete(registeredConfigItemTypes, key);
      } else {
        DeleteAbsent(registeredConfigItemTypes, key);
      }
    }

    method RegisterPath(path: string)
      requires Valid()
      modifies this`registeredPaths
      ensures Valid()
      ensures registeredPaths == Insert(old(registeredPaths), NormalizePath(absPath, path))
      ensures NormalizePath(absPath, path) in registeredPaths
    {
      var p := TrailingSlashIt(path);
      if !StartsWith(p, absPath) {
        p := absPath + p;
      }
      registeredPaths := Insert(registeredPaths, p);
    }

    method UnregisterPath(path: string)
      requires Valid()
      modifies this`registeredPaths
      ensures Valid()
      ensures registeredPaths == Delete(old(registeredPaths), NormalizePath(absPath, path))
      ensures NormalizePath(absPath, path) !in registeredPaths
      ensures NormalizePath(absPath, path) in old(registeredPaths) ==> |registeredPaths| == |old(registeredPaths)| - 1
      ensures forall q | q != NormalizePath(absPath, path) :: q in registeredPaths <==> q in old(registeredPaths)
    {
      var p := TrailingSlashIt(path);
      if !StartsWith(p, absPath) {
        p := absPath + p;
      }
      if p in registeredPaths {
        DeleteShortens(registeredPaths, p);
        registeredPaths := Delete(registeredPaths, p);
      } else {
        DeleteAbsent(registeredPaths, p);
      }
    }

    // -------------------------------------------------------------------
    // get_file_configs

    method GetFileConfigs() returns (fileConfigs: seq<FileConfig>)
      ensures fileConfigs == Grid(dirSep, registeredConfigTypes, registeredConfigItemTypes)
      ensures |fileConfigs| == 2 * |registeredConfigTypes| * |registeredConfigItemTypes|
    {
      var types, itemTypes := registeredConfigTypes, registeredConfigItemTypes;
      fileConfigs := [];
      var i := 0;
      while i < |types|
        invariant 0 <= i <= |types|
        invariant fileConfigs == Grid(dirSep, types[..i], itemTypes)
      {
        var configType := types[i];
        var j := 0;
        while j < |itemTypes|
          invariant 0 <= j <= |itemTypes|
          invariant fileConfigs == Grid(dirSep, types[..i], itemTypes) + Row(dirSep, configType, itemTypes[..j])
        {
          var itemType := itemTypes[j];
          var themeSupport := false;
          if itemType == "pods" {
            themeSupport := true;
          }
          var path := itemType + "." + configType;
          fileConfigs := fileConfigs + [FileConfig(configType, path, itemType, themeSupport)];
          path := "pods" + [dirSep] + path;
          fileConfigs := fileConfigs + [FileConfig(configType, path, itemType, true)];
          assert itemTypes[..j + 1][..j] == itemTypes[..j];
          j := j + 1;
        }
        assert itemTypes[..j] == itemTypes;
        assert types[..i + 1][..i] == types[..i];
        i := i + 1;
      }
      assert types[..i] == types;
      GridLength(dirSep, types, itemTypes);
    }

    // -------------------------------------------------------------------
    // register_config and its helpers

    method RegisterConfigPods(items: seq<Entry>, file: string)
      modifies this`pods, this`filePathConfigs
      ensures Snapshot() == PodsSpec(old(Snapshot()), items, file)
    {
      for i := 0 to |items|
        invariant Snapshot() == PodsSpec(old(Snapshot()), items[..i], file)
      {
        assert items[..i + 1][..i] == items[..i];
        var item := items[i].val;
        if Empty(Get(item, "type")) || Empty(Get(item, "name")) {
          continue;
        }
        var tk, nk := KeyOf(Get(item, "type")), KeyOf(Get(item, "name"));
        if tk.Some? && tk.value !in pods {
          pods := pods[tk.value := map[]];
        }
        var last := Str(ToStr(Get(item, "type")) + ":" + ToStr(Get(item, "name")));
        item := StripId(item);
        if Empty(Get(item, "fields")) {
          item := WriteDim(item, K("fields"), Arr([]));
        }
        pods := PutPod(pods, tk, nk, item);
        filePathConfigs := Note(filePathConfigs, file, K("pods"), last);
      }
      assert items[..|items|] == items;
    }

    method RegisterConfigFields(items: seq<Entry>, file: string)
      modifies this`pods, this`filePathConfigs
      ensures Snapshot() == FieldsSpec(old(Snapshot()), items, file)
    {
      for i := 0 to |items|
        invariant Snapshot() == FieldsSpec(old(Snapshot()), items[..i], file)
      {
        assert items[..i + 1][..i] == items[..i];
        ghost var before := Snapshot();
        var item := items[i].val;
        if || Empty(Get(item, "type")) || Empty(Get(item, "name"))
           || Empty(Get(Get(item, "pod"), "name")) || Empty(Get(Get(item, "pod"), "type")) {
          continue;
        }
        ghost var original := item;
        StripPodIdKeepsSlot(original);
        ghost var pod := StripId(Get(original, "pod"));
        var pt, pn, nm := Get(Get(item, "pod"), "type"), Get(Get(item, "pod"), "name"), Get(item, "name");
        var tk, nk := KeyOf(pt), KeyOf(pn);
        if tk.Some? && tk.value !in pods {
          pods := pods[tk.value := map[]];
        }
        item := StripPodId(item);
        var guard := GuardSlot(pt, pn);
        if !GuardHit(pods, guard) {
          pods := PutPod(pods, tk, nk, Get(item, "pod"));
        }
        if !GuardFieldsHit(pods, guard) {
          pods := PutPod(pods, tk, nk, WriteDim(PodAt(pods, tk, nk), K("fields"), Arr([])));
        }
        assert pods == PrepareFieldPod(before.pods, pod, GuardSlot(Get(pod, "type"), Get(pod, "name")));
        item := StripId(item);
        pods := PutField(pods, tk, nk, KeyOf(nm), item);
        filePathConfigs := Note(filePathConfigs, file, K("pods"), Str(ToStr(pt) + ":" + ToStr(pn) + ":" + ToStr(nm)));
        assert Snapshot() == FieldStep(before, original, file);
      }
      assert items[..|items|] == items;
    }

    /** register_config_templates, _pages and _helpers, which differ only in
        the table they fill. */
    method RegisterNamed(kind: Kind, items: seq<Entry>, file: string)
      modifies this`templates, this`pages, this`helpers, this`filePathConfigs
      ensures Snapshot() == NamedSpec(old(Snapshot()), kind, items, file)
    {
      for i := 0 to |items|
        invariant Snapshot() == NamedSpec(old(Snapshot()), kind, items[..i], file)
      {
        assert items[..i + 1][..i] == items[..i];
        var item := items[i].val;
        var nm := Get(item, "name");
        if Empty(nm) {
          continue;
        }
        item := StripId(item);
        var k := KeyOf(nm);
        if k.Some? {
          match kind
          case Templates => templates := templates[k.value := item];
          case Pages => pages := pages[k.value := item];
          case Helpers => helpers := helpers[k.value := item];
        }
        filePathConfigs := Note(filePathConfigs, file, KindKey(kind), nm);
      }
      assert items[..|items|] == items;
    }

    method RegisterConfigTemplates(items: seq<Entry>, file: string)
      modifies this`templates, this`pages, this`helpers, this`filePathConfigs
      ensures Snapshot() == NamedSpec(old(Snapshot()), Templates, items, file)
    {
      RegisterNamed(Templates, items, file);
    }

    method RegisterConfigPages(items: seq<Entry>, file: string)
      modifies this`templates, this`pages, this`helpers, this`filePathConfigs
      ensures Snapshot() == NamedSpec(old(Snapshot()), Pages, items, file)
    {
      RegisterNamed(Pages, items, file);
    }

    method RegisterConfigHelpers(items: seq<Entry>, file: string)
      modifies this`templates, this`pages, this`helpers, this`filePathConfigs
      ensures Snapshot() == NamedSpec(old(Snapshot()), Helpers, items, file)
    {
      RegisterNamed(Helpers, items, file);
    }

    method RegisterConfigCustomItemType(itemType: Key, items: seq<Entry>, file: string)
      modifies this`customConfigs, this`filePathConfigs
      ensures Snapshot() == CustomSpec(old(Snapshot()), itemType, items, file, filter)
    {
      if itemType !in customConfigs {
        customConfigs := customConfigs[itemType := map[]];
      }
      ghost var start := Snapshot();
      for i := 0 to |items|
        invariant Snapshot() == CustomLoop(start, itemType, items[..i], file, filter)
      {
        assert items[..i + 1][..i] == items[..i];
        var item := filter(items[i].val, itemType, file);
        var nm := Get(item, "name");
        if Empty(nm) {
          continue;
        }
        item := StripId(item);
        var k := KeyOf(nm);
        var m := if itemType in customConfigs then customConfigs[itemType] else map[];
        if k.Some? {
          m := m[k.value := item];
        }
        customConfigs := customConfigs[itemType := m];
        filePathConfigs := Note(filePathConfigs, file, itemType, nm);
      }
      assert items[..|items|] == items;
    }

    method RegisterConfig(config: seq<Entry>, file: string, fileConfig: seq<Entry> := [])
      modifies this`pods, this`templates, this`pages, this`helpers, this`customConfigs, this`filePathConfigs
      ensures Snapshot() == ConfigSpec(old(Snapshot()), config, file, fileConfig, filter)
    {
      if file !in filePathConfigs {
        filePathConfigs := filePathConfigs[file := map[]];
      }
      var fileItemType := Lookup(fileConfig, "item_type");
      ghost var start := Snapshot();
      assert start == OpenFile(old(Snapshot()), file);
      for i := 0 to |config|
        invariant Snapshot() == GroupsSpec(start, config[..i], file, fileItemType, filter)
      {
        assert config[..i + 1][..i] == config[..i];
        ghost var before := Snapshot();
        var itemType, items := config[i].key, config[i].val;
        if Empty(items) || !items.Arr? {
          continue;
        }
        if !Empty(fileItemType) && fileItemType != KeyValue(itemType) && fileItemType != Str("pods") {
          continue;
        }
        filePathConfigs := OpenSlot(filePathConfigs, file, itemType);
        if itemType == K("pods") {
          RegisterConfigPods(items.entries, file);
        } else if itemType == K("fields") {
          RegisterConfigFields(items.entries, file);
        } else if itemType == K("templates") {
          RegisterConfigTemplates(items.entries, file);
        } else if itemType == K("pages") {
          RegisterConfigPages(items.entries, file);
        } else if itemType == K("helpers") {
          RegisterConfigHelpers(items.entries, file);
        } else {
          RegisterConfigCustomItemType(itemType, items.entries, file);
        }
        assert Snapshot() == GroupStep(before, config[i], file, fileItemType, filter);
      }
      assert config[..|config|] == config;
    }
  }
}
