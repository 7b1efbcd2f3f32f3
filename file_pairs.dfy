/**
 * Pairing annotation files across the two roots: `collect_label_files` and
 * the shared-key / limit computation at the start of the discovery run.
 * A directory tree is the sorted sequence of its entries (what
 * `sorted(root.rglob("*"))` yields), each with its path, its file name and
 * whether it is a regular file. Paths are strings; nothing is opened here.
 */
module FilePairs {

  import opened Wrappers
  import opened Text

  datatype Entry = Entry(path: string, name: string, isFile: bool)

  predicate EndsWith(name: string, suffix: string)
  {
    |suffix| <= |name| && name[|name| - |suffix|..] == suffix
  }

  /** Entries the collector looks at: files, and with a non-empty suffix only
      those whose name ends with it. */
  predicate Eligible(e: Entry, suffix: string)
  {
    e.isFile && (suffix == [] || EndsWith(e.name, suffix))
  }

  /** The base key: the name without the suffix (the whole name for an empty suffix). */
  function BaseName(name: string, suffix: string): (base: string)
    requires suffix == [] || EndsWith(name, suffix)
    ensures base + suffix == name
  {
    if suffix == [] then name else name[..|name| - |suffix|]
  }

  /** The table built from the entries, in order: the first eligible entry with a
      given base key wins. */
  function Collect(entries: seq<Entry>, suffix: string): map<string, string>
  {
    if entries == [] then map[]
    else
      var files := Collect(entries[..|entries| - 1], suffix);
      var e := entries[|entries| - 1];
      if !Eligible(e, suffix) then files
      else
        var base := BaseName(e.name, suffix);
        if base in files then files else files[base := e.path]
  }

  /** The duplicate-base warnings, one per later eligible entry whose base is taken. */
  function Duplicates(entries: seq<Entry>, suffix: string): seq<string>
  {
    if entries == [] then []
    else
      var init := entries[..|entries| - 1];
      var e := entries[|entries| - 1];
      if Eligible(e, suffix) && BaseName(e.name, suffix) in Collect(init, suffix)
      then Duplicates(init, suffix) + [BaseName(e.name, suffix)]
      else Duplicates(init, suffix)
  }

  function EligibleCount(entries: seq<Entry>, suffix: string): nat
  {
    if entries == [] then 0
    else EligibleCount(entries[..|entries| - 1], suffix) + (if Eligible(entries[|entries| - 1], suffix) then 1 else 0)
  }

  /** Entry `i` is eligible and carries base key `b`. */
  predicate HasBase(entries: seq<Entry>, i: int, suffix: string, b: string)
  {
    0 <= i < |entries| && Eligible(entries[i], suffix) && BaseName(entries[i].name, suffix) == b
  }

  /** Removing the suffix from a name that ends with it and appending it again
      gives the name back, so distinct names under one suffix have distinct keys. */
  lemma BaseNameInjective(n1: string, n2: string, suffix: string)
    requires suffix == [] || (EndsWith(n1, suffix) && EndsWith(n2, suffix))
    requires BaseName(n1, suffix) == BaseName(n2, suffix)
    ensures n1 == n2
  {
    assert BaseName(n1, suffix) + suffix == n1;
  }

  /** A key is in the table exactly when some eligible entry has it. */
  lemma {:induction false} CollectMembers(entries: seq<Entry>, suffix: string, b: string)
    ensures b in Collect(entries, suffix) <==> exists i :: HasBase(entries, i, suffix, b)
  {
    if entries != [] {
      var init := entries[..|entries| - 1];
      var files := Collect(init, suffix);
      CollectMembers(init, suffix, b);
      assert b in files ==> b in Collect(entries, suffix);
      if i :| HasBase(entries, i, suffix, b) {
        if i < |init| {
          assert HasBase(init, i, suffix, b);
        }
      }
      if i :| HasBase(init, i, suffix, b) {
        assert HasBase(entries, i, suffix, b);
      }
      if b in Collect(entries, suffix) && b !in files {
        assert HasBase(entries, |init|, suffix, b);
      }
    }
  }

  /** First wins: a key in the table maps to the path of the first eligible
      entry that has it. */
  lemma {:induction false} CollectFirstWins(entries: seq<Entry>, suffix: string, b: string)
    requires b in Collect(entries, suffix)
    ensures exists i :: HasBase(entries, i, suffix, b) && Collect(entries, suffix)[b] == entries[i].path &&
                        forall j :: 0 <= j < i ==> !HasBase(entries, j, suffix, b)
  {
    var init := entries[..|entries| - 1];
    var files := Collect(init, suffix);
    if b in files {
      CollectFirstWins(init, suffix, b);
      var i :| HasBase(init, i, suffix, b) && files[b] == init[i].path &&
               forall j :: 0 <= j < i ==> !HasBase(init, j, suffix, b);
      assert HasBase(entries, i, suffix, b);
      assert Collect(entries, suffix)[b] == files[b];
      forall j | 0 <= j < i ensures !HasBase(entries, j, suffix, b) {
        assert !HasBase(init, j, suffix, b);
      }
    } else {
      CollectMembers(init, suffix, b);
      var i := |init|;
      assert HasBase(entries, i, suffix, b) && Collect(entries, suffix)[b] == entries[i].path;
      forall j | 0 <= j < i ensures !HasBase(entries, j, suffix, b) {
        assert !HasBase(init, j, suffix, b);
      }
    }
  }

  /** A later entry whose base key is already taken leaves the table as it is
      and adds one warning naming that key. */
  lemma DuplicateIgnored(entries: seq<Entry>, e: Entry, suffix: string)
    requires Eligible(e, suffix) && BaseName(e.name, suffix) in Collect(entries, suffix)
    ensures Collect(entries + [e], suffix) == Collect(entries, suffix)
    ensures Duplicates(entries + [e], suffix) == Duplicates(entries, suffix) + [BaseName(e.name, suffix)]
  {
    assert (entries + [e])[..|entries|] == entries;
  }

  /** Every eligible entry either adds a key or raises one duplicate warning. */
  lemma {:induction false} CollectAccounting(entries: seq<Entry>, suffix: string)
    ensures |Collect(entries, suffix)| + |Duplicates(entries, suffix)| == EligibleCount(entries, suffix)
  {
    if entries != [] {
      CollectAccounting(entries[..|entries| - 1], suffix);
    }
  }

  /** `collect_label_files`: walks the entries once, filling the table. */
  method CollectLabelFiles(entries: seq<Entry>, suffix: string)
    returns (files: map<string, string>, duplicates: seq<string>)
    ensures files == Collect(entries, suffix)
    ensures duplicates == Duplicates(entries, suffix)
    ensures forall b :: b in files ==> exists i :: HasBase(entries, i, suffix, b) && files[b] == entries[i].path
  {
    files, duplicates := map[], [];
    var i := 0;
    while i < |entries|
      invariant 0 <= i <= |entries|
      invariant files == Collect(entries[..i], suffix)
      invariant duplicates == Duplicates(entries[..i], suffix)
      invariant forall b :: b in files ==> exists k :: HasBase(entries, k, suffix, b) && files[b] == entries[k].path
    {
      var e := entries[i];
      assert entries[..i + 1][..i] == entries[..i];
      i := i + 1;
      if !e.isFile {
        continue;
      }
      var name := e.name;
      if suffix != [] && !EndsWith(name, suffix) {
        continue;
      }
      var base := if suffix != [] then name[..|name| - |suffix|] else name;
      if base in files {
        duplicates := duplicates + [base];
        continue;
      }
      assert HasBase(entries, i - 1, suffix, base);
      files := files[base := e.path];
    }
    assert entries[..|entries|] == entries;
  }

  /** Python's `s[:n]` for any integer `n`: a negative `n` drops `-n` elements from the end. */
  function SliceTo<T>(s: seq<T>, n: int): (r: seq<T>)
    ensures |r| == if n >= 0 then (if n <= |s| then n else |s|)
                   else (if |s| + n >= 0 then |s| + n else 0)
    ensures r == s[..|r|]
  {
    if n >= 0 then (if n <= |s| then s[..n] else s)
    else if |s| + n >= 0 then s[..|s| + n] else []
  }

  /** `sorted(set(orig) & set(yolo))`, cut to `limit` only when the limit is
      truthy (neither `None` nor zero). */
  function SharedKeys(origFiles: map<string, string>, yoloFiles: map<string, string>, limit: Option<int>): seq<string>
  {
    var keys := Sorted(origFiles.Keys * yoloFiles.Keys);
    if limit.Some? && limit.value != 0 then SliceTo(keys, limit.value) else keys
  }

  /** The shared keys are in both tables, strictly ascending, and form a prefix of
      the sorted intersection; without a cap it is the whole intersection, and a
      positive cap keeps the `limit` smallest keys. */
  lemma SharedKeysSound(origFiles: map<string, string>, yoloFiles: map<string, string>, limit: Option<int>)
    ensures forall k :: k in SharedKeys(origFiles, yoloFiles, limit) ==> k in origFiles && k in yoloFiles
    ensures StrictlyAscending(SharedKeys(origFiles, yoloFiles, limit))
    ensures var all := Sorted(origFiles.Keys * yoloFiles.Keys);
            var keys := SharedKeys(origFiles, yoloFiles, limit);
            keys == all[..|keys|] &&
            (limit == None || limit == Some(0) ==> keys == all) &&
            (limit.Some? && limit.value > 0 ==> |keys| == if limit.value <= |all| then limit.value else |all|)
  {
    var all := Sorted(origFiles.Keys * yoloFiles.Keys);
    var keys := SharedKeys(origFiles, yoloFiles, limit);
    assert keys == all[..|keys|];
    forall k | k in keys ensures k in origFiles && k in yoloFiles {
      var j :| 0 <= j < |keys| && keys[j] == k;
      assert all[j] == k;
      assert k in all;
      assert k in origFiles.Keys * yoloFiles.Keys;
    }
  }

  /** Without a cap, or with a non-negative one, no key is shared exactly when the
      two tables have no key in common. */
  lemma NoSharedKeys(origFiles: map<string, string>, yoloFiles: map<string, string>, limit: Option<int>)
    ensures limit == None || limit.value >= 0 ==>
      (SharedKeys(origFiles, yoloFiles, limit) == [] <==> origFiles.Keys * yoloFiles.Keys == {})
  {
    var both := origFiles.Keys * yoloFiles.Keys;
    if both != {} {
      var k :| k in both;
      assert k in Sorted(both);
    }
  }

}
