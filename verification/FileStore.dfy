/**
 * The desktop store of a chain (file_store in
 * ndn-dashboard-core/src/signed_data_chain.rs): one file per entry, written to a
 * temporary file, synced and renamed. A crash may come between any two steps and
 * leave the temporary file torn; a rename happens whole or not at all.
 */
module FileStore {
  import opened Common
  import opened Order

  const SUFFIX := ".data"
  const TMP_SUFFIX := ".tmp"

  /** Entries a `u64` sequence number can tell apart. */
  const MAX_ENTRIES: nat := U64

  type Files = map<string, Bytes>

  // ------------------------------------------------------------------------ file names

  function Pow10(k: nat): nat {
    if k == 0 then 1 else 10 * Pow10(k - 1)
  }

  /** The low `k` decimal digits of `n`, zero-padded. */
  function Digits(n: nat, k: nat): (s: string)
    ensures |s| == k
    decreases k
  {
    if k == 0 then "" else Digits(n / 10, k - 1) + [Digit(n % 10)]
  }

  /** `{seq:020}.data`. */
  function EntryFile(seqNo: nat): string {
    Digits(seqNo, 20) + SUFFIX
  }

  /** `{seq:020}.data.tmp`. */
  function TmpFile(seqNo: nat): string {
    EntryFile(seqNo) + TMP_SUFFIX
  }

  /** `path.extension() == "data"`. */
  predicate IsEntryFile(name: string) {
    |name| > |SUFFIX| && name[|name| - |SUFFIX|..] == SUFFIX
  }

  lemma {:induction false} LexExtends(x: string, y: string, s: string, t: string)
    requires |x| == |y| && LexLe(x, y) && (x == y ==> LexLe(s, t))
    ensures LexLe(x + s, y + t)
  {
    if x == [] {
      assert x + s == s && y + t == t;
    } else {
      assert (x + s)[1..] == x[1..] + s && (y + t)[1..] == y[1..] + t;
      if x[0] == y[0] {
        assert x == [x[0]] + x[1..] && y == [y[0]] + y[1..];
        LexExtends(x[1..], y[1..], s, t);
      }
    }
  }

  lemma LexDigits(c: char, d: char)
    ensures LexLe([c], [d]) <==> c <= d
  {
  }

  /** Padded names sort as the numbers do. */
  lemma {:induction false} DigitsInOrder(a: nat, b: nat, k: nat)
    requires a <= b < Pow10(k)
    ensures LexLe(Digits(a, k), Digits(b, k))
    ensures Digits(a, k) == Digits(b, k) ==> a == b
    decreases k
  {
    hide LexLe;
    if k == 0 {
      LexTotal("", "");
    } else {
      var x, y := Digits(a / 10, k - 1), Digits(b / 10, k - 1);
      var c, d := Digit(a % 10), Digit(b % 10);
      DigitsInOrder(a / 10, b / 10, k - 1);
      LexDigits(c, d);
      if x == y {
        assert a / 10 == b / 10;
      }
      LexExtends(x, y, [c], [d]);
      assert (x + [c])[..k - 1] == x && (y + [d])[..k - 1] == y;
      assert (x + [c])[k - 1] == c && (y + [d])[k - 1] == d;
    }
  }

  lemma Enough20()
    ensures Pow10(20) == 100_000_000_000_000_000_000
  {
    assert Pow10(4) == 10_000;
    assert Pow10(8) == 100_000_000;
    assert Pow10(12) == 1_000_000_000_000;
    assert Pow10(16) == 10_000_000_000_000_000;
  }

  lemma EntryFilesInOrder(i: nat, j: nat)
    requires i <= j < MAX_ENTRIES
    ensures LexLe(EntryFile(i), EntryFile(j))
    ensures EntryFile(i) == EntryFile(j) ==> i == j
  {
    Enough20();
    DigitsInOrder(i, j, 20);
    LexTotal(SUFFIX, SUFFIX);
    LexExtends(Digits(i, 20), Digits(j, 20), SUFFIX, SUFFIX);
    if EntryFile(i) == EntryFile(j) {
      assert EntryFile(i)[..20] == Digits(i, 20) && EntryFile(j)[..20] == Digits(j, 20);
    }
  }

  lemma OnlyFinalNamesCount(i: nat)
    ensures IsEntryFile(EntryFile(i)) && !IsEntryFile(TmpFile(i))
  {
    var name, tmp := EntryFile(i), TmpFile(i);
    assert name[20..] == SUFFIX;
    assert tmp[|tmp| - 5..][4] == tmp[|tmp| - 1] == 'p';
  }

  // --------------------------------------------------------------------------- loading

  function DataFiles(listing: seq<string>): seq<string> {
    if listing == [] then []
    else (if IsEntryFile(listing[0]) then [listing[0]] else []) + DataFiles(listing[1..])
  }

  /** `read_dir` gives every name once, in no particular order. */
  ghost predicate IsListing(files: Files, listing: seq<string>) {
    Distinct(listing) && forall name :: name in listing <==> name in files
  }

  function Contents(files: Files, names: seq<string>): seq<Bytes>
    requires forall k :: 0 <= k < |names| ==> names[k] in files
  {
    seq(|names|, k requires 0 <= k < |names| => files[names[k]])
  }

  /** The directory holds `wires` as entry files 0, 1, 2 and so on, and no others. */
  ghost predicate Holds(files: Files, wires: seq<Bytes>) {
    && |wires| <= MAX_ENTRIES
    && (forall i :: 0 <= i < |wires| ==> EntryFile(i) in files && files[EntryFile(i)] == wires[i])
    && (forall name :: name in files && IsEntryFile(name) ==> exists i :: 0 <= i < |wires| && name == EntryFile(i))
  }

  function Names(n: nat): seq<string> {
    seq(n, i requires 0 <= i < n => EntryFile(i))
  }

  lemma NamesSorted(n: nat)
    requires n <= MAX_ENTRIES
    ensures Sorted(LexLe, Names(n)) && Distinct(Names(n))
  {
    hide EntryFile, LexLe;
    forall i, j | 0 <= i < j < n
      ensures LexLe(Names(n)[i], Names(n)[j]) && Names(n)[i] != Names(n)[j]
    {
      EntryFilesInOrder(i, j);
    }
  }

  lemma {:induction false} DataFilesOf(listing: seq<string>)
    ensures forall name :: name in DataFiles(listing) <==> name in listing && IsEntryFile(name)
    ensures Distinct(listing) ==> Distinct(DataFiles(listing))
  {
    hide IsEntryFile;
    if listing != [] {
      var rest := listing[1..];
      DataFilesOf(rest);
      assert listing == [listing[0]] + rest;
      DistinctCons(listing[0], rest);
      DistinctCons(listing[0], DataFiles(rest));
      assert [] + DataFiles(rest) == DataFiles(rest);
    }
  }

  lemma SameElements<T(!new)>(a: seq<T>, b: seq<T>)
    requires Distinct(a) && Distinct(b) && forall x :: x in a <==> x in b
    ensures multiset(a) == multiset(b)
  {
    DistinctIffCounts(a);
    DistinctIffCounts(b);
    forall x
      ensures multiset(a)[x] == multiset(b)[x]
    {
      assert x in a <==> multiset(a)[x] > 0;
      assert x in b <==> multiset(b)[x] > 0;
    }
  }

  lemma HeldNames(files: Files, wires: seq<Bytes>, listing: seq<string>)
    requires Holds(files, wires) && IsListing(files, listing)
    ensures forall name :: name in DataFiles(listing) <==> name in Names(|wires|)
  {
    hide EntryFile, IsEntryFile;
    DataFilesOf(listing);
    var names := Names(|wires|);
    forall name | name in DataFiles(listing)
      ensures name in names
    {
      var i :| 0 <= i < |wires| && name == EntryFile(i);
      assert names[i] == name;
    }
    forall name | name in names
      ensures name in DataFiles(listing)
    {
      var i :| 0 <= i < |wires| && names[i] == name;
      OnlyFinalNamesCount(i);
    }
  }

  /** Whatever order the directory lists its files in, the wires come back in
      sequence order. */
  lemma LoadsInOrder(files: Files, wires: seq<Bytes>, listing: seq<string>)
    requires Holds(files, wires) && IsListing(files, listing)
    ensures Sort(LexLe, DataFiles(listing)) == Names(|wires|)
    ensures forall k :: 0 <= k < |wires| ==> EntryFile(k) in files
    ensures Contents(files, Names(|wires|)) == wires
  {
    hide EntryFile, IsEntryFile, LexLe, Sort;
    LexIsTotalOrder();
    var names := Names(|wires|);
    NamesSorted(|wires|);
    DataFilesOf(listing);
    HeldNames(files, wires, listing);
    SameElements(DataFiles(listing), names);
    SortSorted(LexLe, DataFiles(listing));
    SortedUnique(LexLe, Sort(LexLe, DataFiles(listing)), names);
  }

  // ------------------------------------------------------------------------- appending

  /** Where an append stops, if it does: at the `at`-th of its five steps, by an
      error or because the process is gone. `torn` is what is then in the
      temporary file; `renamed` whether a crash came after the rename. */
  datatype Stop = Stop(at: nat, torn: Bytes, crash: bool, renamed: bool)

  datatype Outcome = Done | Failed | Crashed

  /** The files after an append that stops there, if it stops. */
  function Appended(files: Files, seqNo: nat, wire: Bytes, stop: Option<Stop>): Files {
    var tmp := TmpFile(seqNo);
    if stop.Some? && stop.value.at <= 1 then files
    else if stop.Some? && stop.value.at <= 3 then files[tmp := stop.value.torn]
    else if stop.Some? && !(stop.value.crash && stop.value.renamed) then files[tmp := wire]
    else (files - {tmp})[EntryFile(seqNo) := wire]
  }

  /** Whether the entry is in place. */
  predicate Placed(stop: Option<Stop>) {
    stop.Some? ==> stop.value.at > 3 && stop.value.crash && stop.value.renamed
  }

  /** A stop at any step leaves the old chain, or the old chain and the new wire. */
  lemma AppendIsAtomic(files: Files, wires: seq<Bytes>, wire: Bytes, stop: Option<Stop>)
    requires Holds(files, wires) && |wires| < MAX_ENTRIES
    ensures Holds(Appended(files, |wires|, wire, stop), if Placed(stop) then wires + [wire] else wires)
  {
    hide EntryFile, TmpFile, IsEntryFile;
    var seqNo := |wires|;
    var after := Appended(files, seqNo, wire, stop);
    var now := if Placed(stop) then wires + [wire] else wires;
    forall i | 0 <= i <= seqNo
      ensures EntryFile(i) != TmpFile(seqNo) && (i < seqNo ==> EntryFile(i) != EntryFile(seqNo))
    {
      OnlyFinalNamesCount(i);
      OnlyFinalNamesCount(seqNo);
      EntryFilesInOrder(i, seqNo);
    }
    forall i | 0 <= i < |now|
      ensures EntryFile(i) in after && after[EntryFile(i)] == now[i]
    {
    }
    forall name | name in after && IsEntryFile(name)
      ensures exists i :: 0 <= i < |now| && name == EntryFile(i)
    {
      OnlyFinalNamesCount(seqNo);
      if name in files && name != EntryFile(seqNo) {
        var i :| 0 <= i < |wires| && name == EntryFile(i);
        assert 0 <= i < |now|;
      } else {
        assert name == EntryFile(seqNo);
      }
    }
  }

  lemma OneMoreDataFile(listing: seq<string>, k: nat, paths: seq<string>)
    requires k < |listing|
    ensures paths + DataFiles(listing[k..]) ==
            (if IsEntryFile(listing[k]) then paths + [listing[k]] else paths) + DataFiles(listing[k + 1..])
  {
    hide IsEntryFile;
    assert listing[k..][1..] == listing[k + 1..];
    if IsEntryFile(listing[k]) {
      Assoc(paths, [listing[k]], DataFiles(listing[k + 1..]));
    } else {
      assert [] + DataFiles(listing[k + 1..]) == DataFiles(listing[k + 1..]);
    }
  }

  class FileStore {
    var dirExists: bool
    var files: Files
    /** The wires the directory holds, in sequence order. */
    ghost var wires: seq<Bytes>

    ghost predicate Valid()
      reads this
    {
      Holds(files, wires) && (!dirExists ==> files == map[])
    }

    /** On a directory that does not exist yet. */
    constructor ()
      ensures Valid() && wires == [] && !dirExists
    {
      dirExists, files, wires := false, map[], [];
    }

    method ListDir() returns (listing: seq<string>)
      ensures IsListing(files, listing)
    {
      listing := [];
      var left := files.Keys;
      while left != {}
        invariant Distinct(listing) && left <= files.Keys
        invariant forall name :: name in listing <==> name in files.Keys - left
        decreases left
      {
        var name :| name in left;
        DistinctCons(name, listing);
        listing, left := [name] + listing, left - {name};
      }
    }

    static method DataPaths(listing: seq<string>) returns (paths: seq<string>)
      ensures paths == DataFiles(listing)
    {
      hide IsEntryFile;
      paths := [];
      assert listing[0..] == listing && [] + DataFiles(listing) == DataFiles(listing);
      for k := 0 to |listing|
        invariant paths + DataFiles(listing[k..]) == DataFiles(listing)
      {
        OneMoreDataFile(listing, k, paths);
        if IsEntryFile(listing[k]) {
          paths := paths + [listing[k]];
        }
      }
      assert listing[|listing|..] == [] && paths + [] == paths;
    }

    method ReadFiles(paths: seq<string>) returns (r: seq<Bytes>)
      requires forall k :: 0 <= k < |paths| ==> paths[k] in files
      ensures r == Contents(files, paths)
    {
      r := [];
      for k := 0 to |paths|
        invariant r == Contents(files, paths)[..k]
      {
        r := r + [files[paths[k]]];
      }
    }

    method LoadAll() returns (r: seq<Bytes>)
      requires Valid()
      ensures r == wires
    {
      hide Holds, Sort, LexLe, EntryFile, DataFiles, IsListing, Contents;
      if !dirExists {
        NothingHeld(files, wires);
        return [];
      }
      var listing := ListDir();
      LoadsInOrder(files, wires, listing);
      var paths := DataPaths(listing);
      paths := Sort(LexLe, paths);
      assert forall k :: 0 <= k < |paths| ==> paths[k] == EntryFile(k);
      r := ReadFiles(paths);
    }

    /** Append one entry wire at the next position; `stop` is what goes wrong. */
    method Append(seqNo: nat, wire: Bytes, stop: Option<Stop>) returns (outcome: Outcome)
      requires Valid() && seqNo == |wires| < MAX_ENTRIES
      modifies this
      ensures Valid()
      ensures files == Appended(old(files), seqNo, wire, stop)
      ensures wires == if Placed(stop) then old(wires) + [wire] else old(wires)
      ensures outcome == if stop.None? then Done else if stop.value.crash then Crashed else Failed
    {
      hide Holds, TmpFile, EntryFile;
      AppendIsAtomic(files, wires, wire, stop);
      ghost var after := Appended(files, seqNo, wire, stop);
      outcome := if stop.None? then Done else if stop.value.crash then Crashed else Failed;
      if stop.Some? && stop.value.at == 0 {
        return;
      }
      dirExists := true;
      if stop.Some? && stop.value.at == 1 {
        return;
      }
      files := files[TmpFile(seqNo) := []];
      if stop.Some? && stop.value.at <= 3 {
        files := files[TmpFile(seqNo) := stop.value.torn];
        assert files == after;
        return;
      }
      files := files[TmpFile(seqNo) := wire];
      if stop.Some? && !(stop.value.crash && stop.value.renamed) {
        assert files == after;
        return;
      }
      var synced := files[TmpFile(seqNo)];
      files := (files - {TmpFile(seqNo)})[EntryFile(seqNo) := synced];
      wires := wires + [wire];
      assert files == after;
    }
  }

  lemma NothingHeld(files: Files, wires: seq<Bytes>)
    requires Holds(files, wires)
    ensures files == map[] ==> wires == []
  {
    hide EntryFile, IsEntryFile;
    if wires != [] {
      assert EntryFile(0) in files;
    }
  }

  // ------------------------------------------------------------------- runs and crashes

  /** Appends in a row, each stopped or not; after a crash the directory is opened
      again and the next append goes where the loaded chain ends. */
  datatype Attempt = Attempt(wire: Bytes, stop: Option<Stop>)

  function Kept(attempts: seq<Attempt>): seq<Bytes> {
    if attempts == [] then []
    else (if Placed(attempts[0].stop) then [attempts[0].wire] else []) + Kept(attempts[1..])
  }

  /** The files after the attempts, `count` entries being loaded at the start. */
  function FilesAfter(files: Files, count: nat, attempts: seq<Attempt>): Files
    decreases |attempts|
  {
    if attempts == [] then files
    else
      var a := attempts[0];
      FilesAfter(Appended(files, count, a.wire, a.stop), if Placed(a.stop) then count + 1 else count, attempts[1..])
  }

  /**
   * After any appends, failures and crashes, what is loaded is the old chain and,
   * in order, every wire whose append finished (and of the others only those a
   * crash overtook after the rename).
   */
  lemma {:induction false} RunsKeepTheChain(files: Files, wires: seq<Bytes>, attempts: seq<Attempt>,
                                            listing: seq<string>)
    requires Holds(files, wires) && |wires| + |attempts| <= MAX_ENTRIES
    requires IsListing(FilesAfter(files, |wires|, attempts), listing)
    ensures Holds(FilesAfter(files, |wires|, attempts), wires + Kept(attempts))
    ensures Sort(LexLe, DataFiles(listing)) == Names(|wires + Kept(attempts)|)
    ensures forall k :: 0 <= k < |wires + Kept(attempts)| ==> EntryFile(k) in FilesAfter(files, |wires|, attempts)
    ensures Contents(FilesAfter(files, |wires|, attempts), Names(|wires + Kept(attempts)|)) == wires + Kept(attempts)
    decreases |attempts|
  {
    hide Holds, EntryFile, Names, Contents, Appended, Placed, IsListing, Sort, DataFiles, LexLe;
    if attempts == [] {
      assert wires + [] == wires;
      LoadsInOrder(files, wires, listing);
    } else {
      var a := attempts[0];
      AppendIsAtomic(files, wires, a.wire, a.stop);
      var now := if Placed(a.stop) then wires + [a.wire] else wires;
      RunsKeepTheChain(Appended(files, |wires|, a.wire, a.stop), now, attempts[1..], listing);
      Assoc(wires, [a.wire], Kept(attempts[1..]));
      assert [] + Kept(attempts[1..]) == Kept(attempts[1..]);
    }
  }
}
