/** The candidate config files `get_file_configs` lists: for every
    registered config type (outer) and item type (inner), a file at the root
    of a config path and one under its `pods/` directory. */
module FileConfigs {

  /** One element of the list: `['type' => ..., 'file' => ..., 'item_type'
      => ..., 'theme_support' => ...]`. */
  datatype FileConfig = FileConfig(configType: string, file: string, itemType: string, themeSupport: bool)

  /** `sprintf('%s.%s', $config_item_type, $config_type)`. */
  function BareFile(configType: string, itemType: string): string {
    itemType + "." + configType
  }

  /** The root entry: themes only read `pods.<type>` at their root. */
  function Bare(configType: string, itemType: string): FileConfig {
    FileConfig(configType, BareFile(configType, itemType), itemType, itemType == "pods")
  }

  /** The entry below `pods/`, read from every path. */
  function Themed(sep: char, configType: string, itemType: string): FileConfig {
    FileConfig(configType, "pods" + [sep] + BareFile(configType, itemType), itemType, true)
  }

  /** The entries for one config type, item types in order. */
  function Row(sep: char, configType: string, itemTypes: seq<string>): seq<FileConfig>
    decreases |itemTypes|
  {
    if |itemTypes| == 0 then []
    else Row(sep, configType, itemTypes[..|itemTypes| - 1])
         + [Bare(configType, itemTypes[|itemTypes| - 1]), Themed(sep, configType, itemTypes[|itemTypes| - 1])]
  }

  /** The whole list, config types in order. */
  function Grid(sep: char, configTypes: seq<string>, itemTypes: seq<string>): seq<FileConfig>
    decreases |configTypes|
  {
    if |configTypes| == 0 then []
    else Grid(sep, configTypes[..|configTypes| - 1], itemTypes) + Row(sep, configTypes[|configTypes| - 1], itemTypes)
  }

  lemma {:induction false} RowAt(sep: char, configType: string, itemTypes: seq<string>, j: nat)
    requires j < |itemTypes|
    ensures |Row(sep, configType, itemTypes)| == 2 * |itemTypes|
    ensures Row(sep, configType, itemTypes)[2 * j] == Bare(configType, itemTypes[j])
    ensures Row(sep, configType, itemTypes)[2 * j + 1] == Themed(sep, configType, itemTypes[j])
    decreases |itemTypes|
  {
    var n := |itemTypes|;
    var init := itemTypes[..n - 1];
    if j < n - 1 {
      RowAt(sep, configType, init, j);
    } else if n > 1 {
      RowAt(sep, configType, init, 0);
    } else {
      assert init == [];
    }
  }

  lemma RowLength(sep: char, configType: string, itemTypes: seq<string>)
    ensures |Row(sep, configType, itemTypes)| == 2 * |itemTypes|
  {
    if |itemTypes| > 0 {
      RowAt(sep, configType, itemTypes, 0);
    }
  }

  lemma NextRowArith(n: nat, m: nat)
    requires n > 0
    ensures 2 * (n - 1) * m + 2 * m == 2 * n * m
  {
  }

  /** get_file_configs lists exactly two entries per (config type, item type). */
  lemma {:induction false} GridLength(sep: char, configTypes: seq<string>, itemTypes: seq<string>)
    ensures |Grid(sep, configTypes, itemTypes)| == 2 * |configTypes| * |itemTypes|
    decreases |configTypes|
  {
    var n := |configTypes|;
    if n > 0 {
      var init := configTypes[..n - 1];
      GridLength(sep, init, itemTypes);
      RowLength(sep, configTypes[n - 1], itemTypes);
      NextRowArith(n, |itemTypes|);
    }
  }

  lemma LastRowArith(i: nat, j: nat, n: nat, m: nat)
    requires i == n - 1
    ensures 2 * (i * m + j) == 2 * (n - 1) * m + 2 * j
  {
  }

  /** The order: config type i, item type j sits at 2 * (i * m + j) as its
      root entry, immediately followed by its `pods/` entry. */
  lemma {:induction false} GridAt(sep: char, configTypes: seq<string>, itemTypes: seq<string>, i: nat, j: nat)
    requires i < |configTypes| && j < |itemTypes|
    ensures 2 * (i * |itemTypes| + j) + 1 < |Grid(sep, configTypes, itemTypes)|
    ensures Grid(sep, configTypes, itemTypes)[2 * (i * |itemTypes| + j)] == Bare(configTypes[i], itemTypes[j])
    ensures Grid(sep, configTypes, itemTypes)[2 * (i * |itemTypes| + j) + 1] == Themed(sep, configTypes[i], itemTypes[j])
    decreases |configTypes|
  {
    var n, m := |configTypes|, |itemTypes|;
    var init := configTypes[..n - 1];
    var front := Grid(sep, init, itemTypes);
    var row := Row(sep, configTypes[n - 1], itemTypes);
    assert Grid(sep, configTypes, itemTypes) == front + row;
    var k := 2 * (i * m + j);
    if i < n - 1 {
      GridAt(sep, init, itemTypes, i, j);
      assert init[i] == configTypes[i];
      assert k + 1 < |front|;
      assert (front + row)[k] == front[k] && (front + row)[k + 1] == front[k + 1];
    } else {
      GridLength(sep, init, itemTypes);
      RowAt(sep, configTypes[n - 1], itemTypes, j);
      LastRowArith(i, j, n, m);
      assert k == |front| + 2 * j;
      assert (front + row)[k] == row[2 * j] && (front + row)[k + 1] == row[2 * j + 1];
    }
  }

  /** The `pods/` entry always supports themes and is its root entry's file
      under `pods/`; a root entry supports themes exactly when its item type
      is 'pods'; both carry the pair's config type and item type. */
  lemma GridThemeSupport(sep: char, configTypes: seq<string>, itemTypes: seq<string>, i: nat, j: nat)
    requires i < |configTypes| && j < |itemTypes|
    ensures var g, k := Grid(sep, configTypes, itemTypes), 2 * (i * |itemTypes| + j);
      && k + 1 < |g|
      && g[k + 1].themeSupport
      && g[k].themeSupport == (itemTypes[j] == "pods")
      && g[k + 1].file == "pods" + [sep] + g[k].file
      && g[k].configType == g[k + 1].configType == configTypes[i]
      && g[k].itemType == g[k + 1].itemType == itemTypes[j]
  {
    GridAt(sep, configTypes, itemTypes, i, j);
  }
}
