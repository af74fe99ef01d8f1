/**
 * A history folder as a map from file names to entries, and the retention
 * rule of `_cleanup_old_files`: list the `*.jpg` and `*.png` images, sort
 * them by modification time, and while there are more than `max_files`
 * remove the oldest together with its `.json` and `.txt` companions.
 */
module Retention {
  import opened Wrappers
  import opened PyText
  import opened Paths
  import opened Sorting

  /** A metadata file's JSON object, as far as the history reads it. */
  datatype Metadata = Metadata(timestamp: Option<string>, mode: Option<string>)

  /** `{}`: what the listing uses when a metadata file is missing or unreadable. */
  const NoMetadata := Metadata(None, None)

  /**
   * One entry of a folder: a regular file or a sub-directory, its `st_mtime`
   * and `st_size`, and what `json.load` yields for it (None when it fails).
   */
  datatype Entry = Entry(isFile: bool, mtime: int, size: nat, json: Option<Metadata>)

  type Dir = map<string, Entry>

  /** No sub-directories: every entry is a regular file. */
  predicate AllFiles(d: Dir) {
    forall n :: n in d ==> d[n].isFile
  }

  /** The names the `*.jpg` and `*.png` globs list. */
  function Images(d: Dir): set<string> {
    set n | n in d && IsImageName(n)
  }

  /** No element occurs twice. */
  ghost predicate Distinct(s: seq<string>) {
    forall x :: multiset(s)[x] <= 1
  }

  /** `s` lists the set `all`, each element once, in some order. */
  ghost predicate Enumerates(s: seq<string>, all: set<string>) {
    Distinct(s) && forall x :: x in s <==> x in all
  }

  /** A glob: the names of `d` ending in `ext`, in the order the file system returns them. */
  method Glob(d: Dir, ext: string) returns (names: seq<string>)
    ensures Enumerates(names, set n | n in d && EndsWith(n, ext))
  {
    names := [];
    var rest := set n | n in d && EndsWith(n, ext);
    ghost var all := rest;
    while rest != {}
      invariant rest <= all
      invariant Distinct(names)
      invariant forall x :: x in names <==> x in all && x !in rest
      decreases |rest|
    {
      var n :| n in rest;
      assert n !in names;
      names := names + [n];
      rest := rest - {n};
    }
  }

  /** `x.stat().st_mtime` for a listed name. */
  function MTime(d: Dir, n: string): int {
    if n in d then d[n].mtime else 0
  }

  /** The sort key of the cleanup: older (or equally old) first. */
  function OlderOrSame(d: Dir): (string, string) -> bool {
    (a: string, b: string) => MTime(d, a) <= MTime(d, b)
  }

  lemma OlderOrSameOrders(d: Dir)
    ensures TotalPreorder(OlderOrSame(d))
  {
  }

  /**
   * One round of the pruning loop: unlink the image, then its `.json`, then
   * its `.txt`. An error (the image is gone, or a directory stands where a
   * file is expected) is caught and ends the round; the loop goes on.
   */
  function RemoveImage(d: Dir, name: string): (r: Dir)
    ensures forall n :: n in r ==> n in d && r[n] == d[n]
    ensures forall n :: n in d && n != name && n != JsonOf(name) && n != TextOf(name) ==> n in r
  {
    if name !in d || !d[name].isFile then d
    else
      var d1 := d - {name};
      var j := JsonOf(name);
      if j in d1 && !d1[j].isFile then d1
      else
        var d2 := d1 - {j};
        var t := TextOf(name);
        if t in d2 && !d2[t].isFile then d2 else d2 - {t}
  }

  /** The rounds for `names`, in order (`files.pop(0)`). */
  function RemoveAll(d: Dir, names: seq<string>): (r: Dir)
    ensures forall n :: n in r ==> n in d && r[n] == d[n]
    ensures forall n :: n in d && n !in Family(names) ==> n in r
    decreases |names|
  {
    if names == [] then d else RemoveAll(RemoveImage(d, names[0]), names[1..])
  }

  /**
   * How many rounds run for `n` listed images: down to `max_files`, or, for a
   * negative limit, until the list is empty (the next `pop` raises and ends the cleanup).
   */
  function PruneCount(n: nat, maxFiles: int): (k: nat)
    ensures k <= n
    ensures n <= maxFiles ==> k == 0
    ensures n > maxFiles && maxFiles >= 0 ==> n - k == maxFiles
    ensures maxFiles < 0 ==> k == n
  {
    if n > maxFiles then n - (if maxFiles < 0 then 0 else maxFiles) else 0
  }

  /** The folder after the pruning loop over the already sorted `files`. */
  function Pruned(d: Dir, files: seq<string>, maxFiles: int): (r: Dir)
    ensures forall n :: n in r ==> n in d && r[n] == d[n]
    ensures forall n :: n in d && n !in Family(files) ==> n in r
  {
    FamilyPrefix(files, PruneCount(|files|, maxFiles));
    RemoveAll(d, files[..PruneCount(|files|, maxFiles)])
  }

  /** `_cleanup_old_files` on folder `d` whose images the globs listed as `listing`. */
  function Cleaned(d: Dir, listing: seq<string>, maxFiles: int): (r: Dir)
    ensures forall n :: n in r ==> n in d && r[n] == d[n]
  {
    Pruned(d, SortBy(listing, OlderOrSame(d)), maxFiles)
  }

  /** The images of a prefix and their companions are among those of the whole list. */
  lemma {:induction false} FamilyPrefix(names: seq<string>, k: nat)
    requires k <= |names|
    ensures Family(names[..k]) <= Family(names)
    decreases k
  {
    if k > 0 {
      assert names[..k][0] == names[0];
      assert names[..k][1..] == names[1..][..k - 1];
      FamilyPrefix(names[1..], k - 1);
    }
  }

  /** The images named and their companions. */
  function Family(names: seq<string>): set<string>
    decreases |names|
  {
    if names == [] then {}
    else {names[0], JsonOf(names[0]), TextOf(names[0])} + Family(names[1..])
  }

  // ---------------------------------------------------------------------------
  // lemmas

  /** In a folder of regular files one round removes the image and whichever companions exist. */
  lemma RemoveImageRegular(d: Dir, name: string)
    requires AllFiles(d) && name in d
    ensures RemoveImage(d, name) == d - {name, JsonOf(name), TextOf(name)}
  {
    var r := RemoveImage(d, name);
    var e := d - {name, JsonOf(name), TextOf(name)};
    assert forall k :: k in r <==> k in e;
    assert forall k :: k in r ==> r[k] == e[k];
  }

  lemma {:induction false} FamilyImages(names: seq<string>, n: string)
    requires IsImageName(n)
    ensures n in Family(names) <==> n in names
    decreases |names|
  {
    if names != [] {
      FamilyImages(names[1..], n);
      ImageNotCompanion(n, names[0]);
      assert names == [names[0]] + names[1..];
    }
  }

  lemma DistinctTail(s: seq<string>)
    requires s != [] && Distinct(s)
    ensures Distinct(s[1..]) && s[0] !in s[1..]
  {
    assert s == [s[0]] + s[1..];
    assert multiset(s) == multiset{s[0]} + multiset(s[1..]);
    forall x ensures multiset(s[1..])[x] <= 1 {
      assert multiset(s)[x] == multiset{s[0]}[x] + multiset(s[1..])[x];
    }
    assert multiset(s)[s[0]] == 1 + multiset(s[1..])[s[0]];
    assert s[0] !in multiset(s[1..]);
  }

  /** Rounds over distinct images of a folder of regular files remove exactly the images and their companions. */
  lemma {:induction false} RemoveAllRegular(d: Dir, names: seq<string>)
    requires AllFiles(d) && Distinct(names)
    requires forall n :: n in names ==> n in d && IsImageName(n)
    ensures RemoveAll(d, names) == d - Family(names)
    decreases |names|
  {
    if names != [] {
      var n0 := names[0];
      var rest := names[1..];
      var fam0 := {n0, JsonOf(n0), TextOf(n0)};
      RemoveImageRegular(d, n0);
      var d' := d - fam0;
      DistinctTail(names);
      forall n | n in rest ensures n in d' && IsImageName(n) {
        assert n in names;
        ImageNotCompanion(n, n0);
      }
      RemoveAllRegular(d', rest);
      assert Family(names) == fam0 + Family(rest);
      var lhs := d' - Family(rest);
      var rhs := d - Family(names);
      assert forall k :: k in lhs <==> k in rhs;
      assert forall k :: k in lhs ==> lhs[k] == rhs[k];
    } else {
      assert d - Family(names) == d;
    }
  }

  /** One more round after the rounds for `names`. */
  lemma {:induction false} RemoveAllSnoc(d: Dir, names: seq<string>, last: string)
    ensures RemoveAll(d, names + [last]) == RemoveImage(RemoveAll(d, names), last)
    decreases |names|
  {
    if names == [] {
      assert [] + [last] == [last];
      assert [last][1..] == [];
    } else {
      assert (names + [last])[1..] == names[1..] + [last];
      RemoveAllSnoc(RemoveImage(d, names[0]), names[1..], last);
    }
  }

  /** Two duplicate-free listings with nothing in common make a duplicate-free listing. */
  lemma DistinctConcat(a: seq<string>, b: seq<string>)
    requires Distinct(a) && Distinct(b)
    requires forall x :: x in a ==> x !in b
    ensures Distinct(a + b)
  {
    assert multiset(a + b) == multiset(a) + multiset(b);
    forall x ensures multiset(a + b)[x] <= 1 {
      if x in a {
        assert x !in multiset(b);
      } else {
        assert x !in multiset(a);
      }
    }
  }

  /** A duplicate-free sequence has as many distinct elements as entries. */
  lemma {:induction false} DistinctCard(s: seq<string>)
    requires Distinct(s)
    ensures |set x | x in s| == |s|
    decreases |s|
  {
    if s != [] {
      DistinctTail(s);
      DistinctCard(s[1..]);
      assert (set x | x in s) == {s[0]} + (set x | x in s[1..]);
    } else {
      assert (set x | x in s) == {};
    }
  }

  /** The two parts of a duplicate-free sequence are duplicate-free and share nothing. */
  lemma DistinctSplit(s: seq<string>, k: nat)
    requires Distinct(s) && k <= |s|
    ensures Distinct(s[..k]) && Distinct(s[k..])
    ensures forall x :: x in s[..k] ==> x !in s[k..]
  {
    assert s == s[..k] + s[k..];
    assert multiset(s) == multiset(s[..k]) + multiset(s[k..]);
    forall x ensures multiset(s[..k])[x] <= 1 && multiset(s[k..])[x] <= 1 {
      assert multiset(s)[x] == multiset(s[..k])[x] + multiset(s[k..])[x];
    }
    forall x | x in s[..k] ensures x !in s[k..] {
      assert x in multiset(s[..k]);
      assert multiset(s)[x] == multiset(s[..k])[x] + multiset(s[k..])[x];
      assert multiset(s[k..])[x] == 0;
    }
  }

  /** Sequences with the same elements and counts: membership and distinctness carry over. */
  lemma SamePermutation(a: seq<string>, b: seq<string>)
    requires multiset(a) == multiset(b)
    ensures forall x :: x in a <==> x in b
    ensures Distinct(a) ==> Distinct(b)
  {
    forall x ensures x in a <==> x in b {
      assert x in a <==> x in multiset(a);
      assert x in b <==> x in multiset(b);
    }
  }

  /** Removing some images with their companions leaves exactly the other images. */
  lemma ImagesAfterRemoval(d: Dir, removed: seq<string>, kept: seq<string>)
    requires forall n :: n in Images(d) <==> n in removed + kept
    requires forall x :: x in removed ==> x !in kept
    ensures forall n :: n in Images(d - Family(removed)) <==> n in kept
  {
    forall n ensures n in Images(d - Family(removed)) <==> n in kept {
      assert n in removed + kept <==> n in removed || n in kept;
      if IsImageName(n) {
        FamilyImages(removed, n);
      } else {
        assert n !in Images(d);
        assert n !in kept;
        assert n !in Images(d - Family(removed));
      }
    }
  }

  /**
   * The retention rule, for a folder of regular files whose images the globs
   * listed: the oldest images are removed with their companions and nothing
   * else; the newest `max_files` stay; within the limit nothing changes.
   */
  lemma CleanedFolder(d: Dir, listing: seq<string>, maxFiles: int)
    requires AllFiles(d) && Enumerates(listing, Images(d))
    ensures var sorted := SortBy(listing, OlderOrSame(d));
            var k := PruneCount(|listing|, maxFiles);
            && Cleaned(d, listing, maxFiles) == d - Family(sorted[..k])
            && (forall n :: n in Images(Cleaned(d, listing, maxFiles)) <==> n in sorted[k..])
    ensures |listing| <= maxFiles ==> Cleaned(d, listing, maxFiles) == d
  {
    var sorted := SortBy(listing, OlderOrSame(d));
    var k := PruneCount(|listing|, maxFiles);
    SamePermutation(listing, sorted);
    DistinctSplit(sorted, k);
    assert sorted == sorted[..k] + sorted[k..];
    forall n | n in sorted[..k] ensures n in d && IsImageName(n) {
      assert n in sorted;
    }
    RemoveAllRegular(d, sorted[..k]);
    ImagesAfterRemoval(d, sorted[..k], sorted[k..]);
    if |listing| <= maxFiles {
      assert sorted[..k] == [];
      assert d - Family([]) == d;
    }
  }

  /** After the cleanup the folder holds at most `max_files` images (none for a negative limit). */
  lemma CleanedWithinLimit(d: Dir, listing: seq<string>, maxFiles: int)
    requires AllFiles(d) && Enumerates(listing, Images(d))
    ensures |Images(Cleaned(d, listing, maxFiles))| ==
            if |listing| <= maxFiles then |listing| else if maxFiles < 0 then 0 else maxFiles
  {
    var sorted := SortBy(listing, OlderOrSame(d));
    var k := PruneCount(|listing|, maxFiles);
    var r := Cleaned(d, listing, maxFiles);
    assert Images(r) == set x | x in sorted[k..] by {
      CleanedFolder(d, listing, maxFiles);
    }
    assert |set x | x in sorted[k..]| == |listing| - k by {
      SamePermutation(listing, sorted);
      DistinctSplit(sorted, k);
      DistinctCard(sorted[k..]);
    }
  }

  /** Every removed image is at least as old as every image that stays. */
  lemma CleanedOldestFirst(d: Dir, listing: seq<string>, maxFiles: int, gone: string, kept: string)
    requires AllFiles(d) && Enumerates(listing, Images(d))
    requires gone in Images(d) && gone !in Cleaned(d, listing, maxFiles)
    requires kept in Images(d) && kept in Cleaned(d, listing, maxFiles)
    ensures d[gone].mtime <= d[kept].mtime
  {
    CleanedFolder(d, listing, maxFiles);
    var sorted := SortBy(listing, OlderOrSame(d));
    var k := PruneCount(|listing|, maxFiles);
    FamilyImages(sorted[..k], gone);
    assert gone in sorted[..k];
    assert kept in Images(Cleaned(d, listing, maxFiles));
    assert kept in sorted[k..];
    var i :| 0 <= i < k && sorted[..k][i] == gone;
    var j :| 0 <= j < |sorted| - k && sorted[k..][j] == kept;
    OlderOrSameOrders(d);
    SortBySorted(listing, OlderOrSame(d));
    assert OlderOrSame(d)(sorted[i], sorted[k + j]);
  }
}
