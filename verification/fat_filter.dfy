/** Directory-entry filtering in the libfat compatibility layer: the three
    filter predicates, the choice of one of them from `DirFilterFlags`, and the
    paging of a filtered directory iterator that `DirectoryReader::read`
    performs. */
module FatFilter {
  import opened MachineInts
  import opened Libfs
  import opened Libfat

  /** The filter chosen when a directory is opened. */
  datatype Filter = All | Dirs | Files

  /** `DirectoryFilterPredicate::all`: every entry except "." and "..". */
  predicate AcceptAll(item: FatItem) {
    item.Entry? && item.entry.fileName != [DOT] && item.entry.fileName != [DOT, DOT]
  }

  /** `DirectoryFilterPredicate::dirs`. */
  predicate AcceptDirs(item: FatItem) {
    item.Entry? && item.entry.isDirectory && AcceptAll(item)
  }

  /** `DirectoryFilterPredicate::files`. */
  predicate AcceptFiles(item: FatItem) {
    item.Entry? && !item.entry.isDirectory && AcceptAll(item)
  }

  predicate Accepts(f: Filter, item: FatItem) {
    match f
    case All => AcceptAll(item)
    case Dirs => AcceptDirs(item)
    case Files => AcceptFiles(item)
  }

  /** No filter lets an iterator error through; `All` accepts exactly the
      names other than "." and ".."; `Dirs` and `Files` split `All` into two
      disjoint halves by the directory attribute. */
  lemma FilterLaws(item: FatItem)
    ensures item.Failed? ==> !Accepts(All, item) && !Accepts(Dirs, item) && !Accepts(Files, item)
    ensures item.Entry? ==> (Accepts(All, item) <==> item.entry.fileName !in {[DOT], [DOT, DOT]})
    ensures !(Accepts(Dirs, item) && Accepts(Files, item))
    ensures Accepts(All, item) <==> Accepts(Dirs, item) || Accepts(Files, item)
    ensures Accepts(Dirs, item) ==> item.entry.isDirectory
    ensures Accepts(Files, item) ==> !item.entry.isDirectory
  {
  }

  /** The filter selection of `open_directory`. */
  function SelectFilter(flags: bv32): (f: Filter)
    ensures f == All <==> HasFlag(flags, DIRECTORY) && HasFlag(flags, FILE)
    ensures f == Dirs <==> HasFlag(flags, DIRECTORY) && !HasFlag(flags, FILE)
    ensures f == Files <==> !HasFlag(flags, DIRECTORY)
  {
    if HasFlag(flags, ALL) then All
    else if HasFlag(flags, DIRECTORY) then Dirs
    else Files
  }

  /** Asking for files only, or for nothing at all, both list files. */
  lemma SelectFilterDefaults()
    ensures SelectFilter(FILE) == Files && SelectFilter(0) == Files
    ensures SelectFilter(DIRECTORY) == Dirs && SelectFilter(ALL) == All
  {
  }

  /** The entries at positions `p` and after that `f` accepts, in iterator
      order: what a filtered iterator standing at `p` still has to give. */
  function Listed(f: Filter, items: seq<FatItem>, p: nat): (r: seq<FatEntry>)
    requires p <= |items|
    ensures |r| <= |items| - p
    decreases |items| - p
  {
    if p == |items| then []
    else if Accepts(f, items[p]) then [items[p].entry] + Listed(f, items, p + 1)
    else Listed(f, items, p + 1)
  }

  /** The directories and the files of a listing together are as many as
      the entries `All` lists. */
  lemma {:induction false} ListedPartition(items: seq<FatItem>, p: nat)
    requires p <= |items|
    ensures |Listed(All, items, p)| == |Listed(Dirs, items, p)| + |Listed(Files, items, p)|
    decreases |items| - p
  {
    if p < |items| {
      FilterLaws(items[p]);
      ListedPartition(items, p + 1);
    }
  }

  /** The position of the first item at or after `p` that `f` accepts, or
      `|items|` when the iterator runs out first: where the inner loop of
      `DirectoryReader::read` stops. */
  function NextAccepted(f: Filter, items: seq<FatItem>, p: nat): (q: nat)
    requires p <= |items|
    ensures p <= q <= |items|
    ensures q < |items| ==> Accepts(f, items[q])
    decreases |items| - p
  {
    if p == |items| then p
    else if Accepts(f, items[p]) then p
    else NextAccepted(f, items, p + 1)
  }

  /** Every item the search passes over is one the filter rejects. */
  lemma {:induction false} NextAcceptedSkips(f: Filter, items: seq<FatItem>, p: nat, j: nat)
    requires p <= |items| && p <= j < NextAccepted(f, items, p)
    ensures !Accepts(f, items[j])
    decreases |items| - p
  {
    if j > p {
      NextAcceptedSkips(f, items, p + 1, j);
    }
  }

  /** The filtered rest of the iterator starts with the entry `NextAccepted`
      finds. */
  lemma {:induction false} ListedFrom(f: Filter, items: seq<FatItem>, p: nat)
    requires p <= |items|
    ensures NextAccepted(f, items, p) == |items| ==> Listed(f, items, p) == []
    ensures NextAccepted(f, items, p) < |items| ==>
      Listed(f, items, p) == [items[NextAccepted(f, items, p)].entry] + Listed(f, items, NextAccepted(f, items, p) + 1)
    decreases |items| - p
  {
    if p < |items| && !Accepts(f, items[p]) {
      assert NextAccepted(f, items, p) == NextAccepted(f, items, p + 1);
      assert Listed(f, items, p) == Listed(f, items, p + 1);
      ListedFrom(f, items, p + 1);
    }
  }

  /** The outcome of one read: how many entries it delivered and the
      iterator position it left behind. */
  datatype Paged = Paged(count: nat, next: nat)

  /** One `read` into a buffer of `n` slots from iterator position `p`: the
      number of entries written and the new iterator position. Slots are
      filled in order; each takes the next accepted item, and an exhausted
      iterator ends the read early, leaving the later slots alone. */
  function Page(f: Filter, items: seq<FatItem>, p: nat, n: nat): (r: Paged)
    requires p <= |items|
    ensures r.count <= n && p <= r.next <= |items|
    ensures r.count > 0 ==> p < r.next
    decreases n
  {
    if n == 0 then Paged(0, p)
    else
      var prev := Page(f, items, p, n - 1);
      if prev.count < n - 1 then prev
      else
        var q := NextAccepted(f, items, prev.next);
        if q == |items| then Paged(prev.count, |items|) else Paged(prev.count + 1, q + 1)
  }

  /** A suffix that starts with `x` followed by `rest`. */
  lemma ConsSuffix<T>(s: seq<T>, k: nat, x: T, rest: seq<T>)
    requires k <= |s| && s[k..] == [x] + rest
    ensures k < |s| && s[k] == x && s[k + 1..] == rest
  {
    assert s[k..][0] == x;
    assert s[k + 1..] == s[k..][1..];
  }

  /** What a read of `i` slots tells about the filtered rest `Listed(p)`:
      it took `min(i, remaining)` entries, left the iterator exactly after
      them, and, when short, left it exhausted. */
  ghost predicate Delivers(f: Filter, items: seq<FatItem>, p: nat, i: nat, r: Paged)
    requires p <= r.next <= |items|
  {
    var all := Listed(f, items, p);
    r.count == Min(i, |all|) && Listed(f, items, r.next) == all[r.count..] &&
    (r.count < i ==> r.next == |items|)
  }

  /** The slot after a short read changes nothing. */
  lemma StepAfterShort(f: Filter, items: seq<FatItem>, p: nat, n: nat)
    requires p <= |items| && n > 0
    requires Delivers(f, items, p, n - 1, Page(f, items, p, n - 1))
    requires Page(f, items, p, n - 1).count < n - 1
    ensures Delivers(f, items, p, n, Page(f, items, p, n))
  {
    assert Page(f, items, p, n) == Page(f, items, p, n - 1);
  }

  /** A slot that finds the iterator exhausted ends the read. */
  lemma StepExhausted(f: Filter, items: seq<FatItem>, p: nat, n: nat)
    requires p <= |items| && n > 0
    requires Delivers(f, items, p, n - 1, Page(f, items, p, n - 1))
    requires Page(f, items, p, n - 1).count == n - 1
    requires NextAccepted(f, items, Page(f, items, p, n - 1).next) == |items|
    ensures Delivers(f, items, p, n, Page(f, items, p, n))
  {
    var e := Page(f, items, p, n - 1).next;
    ListedFrom(f, items, e);
    assert Page(f, items, p, n) == Paged(n - 1, |items|);
  }

  /** A slot that finds an accepted item takes the next entry of the
      filtered rest. */
  lemma StepFound(f: Filter, items: seq<FatItem>, p: nat, n: nat)
    requires p <= |items| && n > 0
    requires Delivers(f, items, p, n - 1, Page(f, items, p, n - 1))
    requires Page(f, items, p, n - 1).count == n - 1
    requires NextAccepted(f, items, Page(f, items, p, n - 1).next) < |items|
    ensures Delivers(f, items, p, n, Page(f, items, p, n))
    ensures var q := NextAccepted(f, items, Page(f, items, p, n - 1).next);
      n - 1 < |Listed(f, items, p)| && Listed(f, items, p)[n - 1] == items[q].entry
  {
    var e := Page(f, items, p, n - 1).next;
    var q := NextAccepted(f, items, e);
    ListedFrom(f, items, e);
    ConsSuffix(Listed(f, items, p), n - 1, items[q].entry, Listed(f, items, q + 1));
    assert Page(f, items, p, n) == Paged(n, q + 1);
  }

  /** What one read delivers: `min(n, remaining)` entries, the first ones of
      the filtered rest; the iterator is left exactly after them; and a read
      that comes up short leaves the iterator exhausted. */
  lemma {:induction false} PageSpec(f: Filter, items: seq<FatItem>, p: nat, n: nat)
    requires p <= |items|
    ensures Page(f, items, p, n).count == Min(n, |Listed(f, items, p)|)
    ensures Listed(f, items, Page(f, items, p, n).next) == Listed(f, items, p)[Page(f, items, p, n).count..]
    ensures Page(f, items, p, n).count < n ==> Page(f, items, p, n).next == |items|
    decreases n
  {
    if n == 0 {
      var all := Listed(f, items, p);
      assert all[0..] == all;
    } else {
      PageSpec(f, items, p, n - 1);
      var prev := Page(f, items, p, n - 1);
      if prev.count < n - 1 {
        StepAfterShort(f, items, p, n);
      } else if NextAccepted(f, items, prev.next) == |items| {
        StepExhausted(f, items, p, n);
      } else {
        StepFound(f, items, p, n);
      }
    }
  }

  /** One more slot of a read filled: the slot takes the item `NextAccepted`
      finds from where the first `i` slots left the iterator, which is the
      next entry of the filtered rest. */
  lemma ReadSlotFilled(f: Filter, items: seq<FatItem>, p: nat, i: nat, e: nat)
    requires p <= |items| && Page(f, items, p, i) == Paged(i, e)
    requires NextAccepted(f, items, e) < |items|
    ensures i < |Listed(f, items, p)|
    ensures Listed(f, items, p)[i] == items[NextAccepted(f, items, e)].entry
    ensures Page(f, items, p, i + 1) == Paged(i + 1, NextAccepted(f, items, e) + 1)
  {
    PageSpec(f, items, p, i);
    StepFound(f, items, p, i + 1);
  }

  /** Once a read comes up short, a read with more slots delivers the same. */
  lemma {:induction false} PageStays(f: Filter, items: seq<FatItem>, p: nat, m: nat, n: nat)
    requires p <= |items| && Page(f, items, p, m).count < m <= n
    ensures Page(f, items, p, n) == Page(f, items, p, m)
    decreases n
  {
    if n > m {
      PageStays(f, items, p, m, n - 1);
    }
  }

  /** The iterator running out at slot `i` ends a read of any size `n > i`
      with `i` entries and the iterator exhausted. */
  lemma ReadCutShort(f: Filter, items: seq<FatItem>, p: nat, i: nat, e: nat, n: nat)
    requires p <= |items| && Page(f, items, p, i) == Paged(i, e)
    requires NextAccepted(f, items, e) == |items| && i < n
    ensures i <= |Listed(f, items, p)|
    ensures Page(f, items, p, n) == Paged(i, |items|)
  {
    PageSpec(f, items, p, i);
    assert Page(f, items, p, i + 1) == Paged(i, |items|);
    PageStays(f, items, p, i + 1, n);
  }

  /** The counts that successive reads with `n` slots return, up to and
      including the first 0. */
  ghost function Drain(f: Filter, items: seq<FatItem>, p: nat, n: nat): (counts: seq<nat>)
    requires p <= |items| && n > 0
    ensures counts != [] && counts[|counts| - 1] == 0
    decreases |items| - p
  {
    var Paged(k, e) := Page(f, items, p, n);
    if k == 0 then [0] else [k] + Drain(f, items, e, n)
  }

  function Sum(s: seq<nat>): nat {
    if s == [] then 0 else s[0] + Sum(s[1..])
  }

  /** Reading until a read returns 0 delivers every accepted entry: the
      counts sum to the number of entries the filter accepts, which is how
      `entry_count` is computed. */
  lemma {:induction false} DrainSum(f: Filter, items: seq<FatItem>, p: nat, n: nat)
    requires p <= |items| && n > 0
    ensures Sum(Drain(f, items, p, n)) == |Listed(f, items, p)|
    decreases |items| - p
  {
    var Paged(k, e) := Page(f, items, p, n);
    PageSpec(f, items, p, n);
    if k > 0 {
      DrainSum(f, items, e, n);
    }
  }
}
