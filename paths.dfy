/** The set-like registration lists (`$this->registered_paths`,
    `registered_config_types`, `registered_config_item_types`), the
    normalisation of their keys, and `relative_path`. */
module Paths {

  // ---------------------------------------------------------------------
  // A PHP array used as an ordered set: `$list[$x] = $x` and `unset($list[$x])`.

  predicate NoDuplicates(s: seq<string>) {
    forall i, j | 0 <= i < j < |s| :: s[i] != s[j]
  }

  /** `$list[$x] = $x`: a new member goes to the end, an old one stays put. */
  function Insert(s: seq<string>, x: string): (r: seq<string>)
    ensures x in r
    ensures forall y :: y in r <==> y in s || y == x
    ensures NoDuplicates(s) ==> NoDuplicates(r)
  {
    if x in s then s else s + [x]
  }

  /** `if (isset($list[$x])) unset($list[$x])`: the others keep their order. */
  function Delete(s: seq<string>, x: string): (r: seq<string>)
    ensures forall y :: y in r <==> y in s && y != x
    ensures |r| <= |s|
    ensures NoDuplicates(s) ==> NoDuplicates(r)
  {
    if |s| == 0 then []
    else if s[0] == x then Delete(s[1..], x)
    else
      var rest := Delete(s[1..], x);
      assert NoDuplicates(s) ==> s[0] !in s[1..];
      [s[0]] + rest
  }

  /** Unregistering a key that is not registered changes nothing. */
  lemma {:induction false} DeleteAbsent(s: seq<string>, x: string)
    requires x !in s
    ensures Delete(s, x) == s
  {
    if |s| > 0 {
      DeleteAbsent(s[1..], x);
    }
  }

  /** In a list without duplicates, unregistering a registered key removes
      exactly one entry. */
  lemma {:induction false} DeleteShortens(s: seq<string>, x: string)
    requires NoDuplicates(s) && x in s
    ensures |Delete(s, x)| == |s| - 1
  {
    assert NoDuplicates(s[1..]) by {
      forall i, j | 0 <= i < j < |s[1..]| ensures s[1..][i] != s[1..][j] {
        assert s[1..][i] == s[i + 1] && s[1..][j] == s[j + 1];
      }
    }
    if s[0] == x {
      assert x !in s[1..] by {
        forall i | 0 <= i < |s[1..]| ensures s[1..][i] != x {
          assert s[1..][i] == s[i + 1];
        }
      }
      DeleteAbsent(s[1..], x);
    } else {
      DeleteShortens(s[1..], x);
    }
  }

  lemma {:induction false} DeleteAppend(s: seq<string>, t: seq<string>, x: string)
    ensures Delete(s + t, x) == Delete(s, x) + Delete(t, x)
  {
    if |s| > 0 {
      assert (s + t)[1..] == s[1..] + t;
      DeleteAppend(s[1..], t, x);
    } else {
      assert s + t == t;
    }
  }

  /** Registering and then unregistering a key removes exactly that key:
      the list is what unregistering alone would have left. */
  lemma DeleteAfterInsert(s: seq<string>, x: string)
    ensures Delete(Insert(s, x), x) == Delete(s, x)
  {
    if x !in s {
      DeleteAppend(s, [x], x);
      assert Delete([x], x) == [];
    }
  }

  /** Registering the same key twice is the same as registering it once. */
  lemma InsertTwice(s: seq<string>, x: string)
    ensures Insert(Insert(s, x), x) == Insert(s, x)
  {
  }

  /** Registering a key again after unregistering it moves it to the end. */
  lemma InsertAfterDelete(s: seq<string>, x: string)
    ensures Insert(Delete(s, x), x) == Delete(s, x) + [x]
  {
  }

  // ---------------------------------------------------------------------
  // Config type and item type keys

  /** `str_replace(['/', DIRECTORY_SEPARATOR], '-', $s)`. */
  function DashSeparators(s: string, sep: char): (r: string)
    ensures |r| == |s|
    ensures forall i | 0 <= i < |s| :: r[i] == (if s[i] == '/' || s[i] == sep then '-' else s[i])
  {
    if |s| == 0 then ""
    else [if s[0] == '/' || s[0] == sep then '-' else s[0]] + DashSeparators(s[1..], sep)
  }

  /** The key `register_config_type` / `register_config_item_type` file a
      name under, given WordPress's sanitize_title. A registered type never
      contains a directory separator, so it is a single path component. */
  function TypeKey(sanitizeTitle: string -> string, sep: char, name: string): (r: string)
    ensures '/' !in r
    ensures sep != '-' ==> sep !in r
  {
    var r := DashSeparators(sanitizeTitle(name), sep);
    assert forall i | 0 <= i < |r| :: r[i] != '/' && (sep != '-' ==> r[i] != sep);
    r
  }

  // ---------------------------------------------------------------------
  // Paths

  predicate IsSlash(c: char) { c == '/' || c == '\\' }

  /** `rtrim($s, '/\\')`. */
  function TrimTrailingSlashes(s: string): (r: string)
    ensures |r| <= |s| && r == s[..|r|]
    ensures |r| > 0 ==> !IsSlash(r[|r| - 1])
    ensures forall i | |r| <= i < |s| :: IsSlash(s[i])
  {
    if |s| == 0 || !IsSlash(s[|s| - 1]) then s
    else
      var r := TrimTrailingSlashes(s[..|s| - 1]);
      assert s[..|s| - 1][..|r|] == s[..|r|];
      r
  }

  /** WordPress's trailingslashit: the input with its trailing slashes
      replaced by exactly one '/'. */
  function TrailingSlashIt(s: string): (r: string)
    ensures |r| > 0 && r[|r| - 1] == '/'
    ensures |r| == 1 || !IsSlash(r[|r| - 2])
    ensures |r| - 1 <= |s| && r[..|r| - 1] == s[..|r| - 1]
    ensures forall i | |r| - 1 <= i < |s| :: IsSlash(s[i])
  {
    TrimTrailingSlashes(s) + "/"
  }

  predicate StartsWith(s: string, prefix: string) {
    |prefix| <= |s| && s[..|prefix|] == prefix
  }

  /** The key `register_path` and `unregister_path` use for a directory: with
      a trailing slash, and inside ABSPATH unless it already starts there. */
  function NormalizePath(absPath: string, path: string): (r: string)
    ensures StartsWith(r, absPath)
    ensures |r| > 0 && r[|r| - 1] == '/'
    ensures StartsWith(TrailingSlashIt(path), absPath) ==> r == TrailingSlashIt(path)
    ensures !StartsWith(TrailingSlashIt(path), absPath) ==> r == absPath + TrailingSlashIt(path)
  {
    var p := TrailingSlashIt(path);
    if StartsWith(p, absPath) then p else absPath + p
  }

  /** `str_replace($needle, '', $s)`: every occurrence, scanning left to
      right without overlap; an empty needle leaves s as it is. */
  function RemoveAll(s: string, needle: string): (r: string)
    ensures |r| <= |s|
    decreases |s|
  {
    if |needle| == 0 || |s| < |needle| then s
    else if s[..|needle|] == needle then RemoveAll(s[|needle|..], needle)
    else [s[0]] + RemoveAll(s[1..], needle)
  }

  /** `relative_path`: the path with ABSPATH taken out. */
  function RelativePath(absPath: string, file: string): string {
    RemoveAll(file, absPath)
  }

  /** needle occurs somewhere in s. */
  predicate Occurs(needle: string, s: string) {
    exists i | 0 <= i <= |s| :: StartsWith(s[i..], needle)
  }

  lemma {:induction false} RemoveAllAbsent(s: string, needle: string)
    requires !Occurs(needle, s)
    ensures RemoveAll(s, needle) == s
    decreases |s|
  {
    if |needle| == 0 {
      assert StartsWith(s[0..], needle);
    } else if |s| >= |needle| {
      assert s[0..] == s;
      assert !StartsWith(s[0..], needle);
      assert !Occurs(needle, s[1..]) by {
        forall i | 0 <= i <= |s[1..]|
          ensures !StartsWith(s[1..][i..], needle)
        {
          assert s[1..][i..] == s[i + 1..];
        }
      }
      RemoveAllAbsent(s[1..], needle);
      assert [s[0]] + s[1..] == s;
    }
  }

  /** relative_path undoes register_path's prefixing: a directory that had
      ABSPATH put in front of it gets back its slash-terminated form,
      provided ABSPATH does not occur in it. */
  lemma RelativeOfNormalized(absPath: string, path: string)
    requires !Occurs(absPath, TrailingSlashIt(path))
    ensures RelativePath(absPath, NormalizePath(absPath, path)) == TrailingSlashIt(path)
  {
    var p := TrailingSlashIt(path);
    assert p[0..] == p;
    assert |absPath| > 0 && !StartsWith(p, absPath);
    var s := absPath + p;
    assert s[..|absPath|] == absPath && s[|absPath|..] == p;
    RemoveAllAbsent(p, absPath);
  }

  /** relative_path also undoes register_path when the path already started
      with ABSPATH and ABSPATH does not occur in the rest. */
  lemma RelativeOfPrefixed(absPath: string, q: string)
    requires |absPath| > 0 && !Occurs(absPath, q)
    ensures RelativePath(absPath, absPath + q) == q
  {
    var s := absPath + q;
    assert s[..|absPath|] == absPath && s[|absPath|..] == q;
    RemoveAllAbsent(q, absPath);
  }
}
