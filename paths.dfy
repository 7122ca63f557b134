/**
 * File names and the file system as the backend sees them.  The disk is a map
 * from path to file text; `Path.Combine` and `Path.GetExtension` follow .NET on
 * a Unix host, where '/' is the only directory separator.
 */
module Paths {

  type Disk = map<string, string>

  /** `File.Exists`: false for the empty path, otherwise whether a file is there. */
  predicate FileExists(disk: Disk, path: string) {
    path != "" && path in disk
  }

  /** `Path.Combine(a, b)`: a rooted `b` replaces `a`; otherwise one separator
      goes between them unless `a` already ends with one. */
  function Combine(a: string, b: string): (r: string)
    ensures b != "" && b[0] != '/' && a != "" ==> r == a + (if a[|a| - 1] == '/' then "" else "/") + b
    ensures a == "" ==> r == b
  {
    if b == "" then a
    else if a == "" || b[0] == '/' then b
    else if a[|a| - 1] == '/' then a + b
    else a + "/" + b
  }

  /** Appending keeps the last character of a non-empty tail. */
  lemma LastOfAppend(a: string, b: string)
    requires b != ""
    ensures (a + b)[|a + b| - 1] == b[|b| - 1]
  {
  }

  /** `Path.Combine(a, b, c)` for relative parts, `b` not ending in a
      separator: `c` follows the combined `a` and `b` after exactly one '/'. */
  lemma CombineTwice(a: string, b: string, c: string)
    requires b != "" && b[0] != '/' && b[|b| - 1] != '/' && c != "" && c[0] != '/'
    ensures Combine(Combine(a, b), c) == Combine(a, b) + "/" + c
  {
    var ab := Combine(a, b);
    if a != "" {
      LastOfAppend(a + (if a[|a| - 1] == '/' then "" else "/"), b);
    }
    assert ab != "" && ab[|ab| - 1] == b[|b| - 1];
  }

  lemma CombineInjective(dir: string, a: string, b: string)
    requires a != "" && a[0] != '/' && b != "" && b[0] != '/'
    requires Combine(dir, a) == Combine(dir, b)
    ensures a == b
  {
    var p := Combine(dir, a);
    var k := |p| - |a|;
    assert p[k..] == a;
    assert Combine(dir, b)[k..] == b;
  }

  /** ASCII lower-casing, which is what `ToLower` does to every character an
      accepted extension can contain. */
  function AsciiLower(s: string): (r: string)
    ensures |r| == |s|
    ensures forall k :: 0 <= k < |s| ==> r[k] == (if 'A' <= s[k] <= 'Z' then (s[k] as int + 32) as char else s[k])
  {
    if s == [] then []
    else [if 'A' <= s[0] <= 'Z' then (s[0] as int + 32) as char else s[0]] + AsciiLower(s[1..])
  }

  /** The scan of `Path.GetExtension` from position `i` down: the part from the
      last '.' to the end, unless a separator comes first or the '.' ends the name. */
  function ExtensionBefore(path: string, i: nat): (r: string)
    requires i <= |path|
    requires forall k :: i <= k < |path| ==> path[k] != '.' && path[k] != '/'
    ensures r == "" || (2 <= |r| <= |path| && r == path[|path| - |r|..] && r[0] == '.')
    ensures forall k :: 1 <= k < |r| ==> r[k] != '.' && r[k] != '/'
    decreases i
  {
    if i == 0 then ""
    else if path[i - 1] == '.' then (if i == |path| then "" else path[i - 1..])
    else if path[i - 1] == '/' then ""
    else ExtensionBefore(path, i - 1)
  }

  /** `Path.GetExtension(path)`, the leading '.' included. */
  function Extension(path: string): (r: string)
    ensures r == "" || (2 <= |r| <= |path| && r == path[|path| - |r|..] && r[0] == '.')
    ensures forall k :: 1 <= k < |r| ==> r[k] != '.' && r[k] != '/'
  {
    ExtensionBefore(path, |path|)
  }

  /** A name whose last segment is `<stem>.<suffix>` has extension `.<suffix>`. */
  lemma {:induction false} ExtensionOfSuffix(path: string, suffix: string, i: nat)
    requires |suffix| >= 1 && |path| > |suffix|
    requires path[|path| - |suffix| - 1] == '.'
    requires forall k :: 0 <= k < |suffix| ==> suffix[k] != '.' && suffix[k] != '/'
    requires path[|path| - |suffix|..] == suffix
    requires |path| - |suffix| <= i <= |path|
    ensures ExtensionBefore(path, i) == path[|path| - |suffix| - 1..]
    decreases i
  {
    var j := |path| - |suffix|;
    assert forall k :: i <= k < |path| ==> path[k] == suffix[k - j];
    if i > j {
      assert path[i - 1] == suffix[i - 1 - j];
      ExtensionOfSuffix(path, suffix, i - 1);
    }
  }
}
