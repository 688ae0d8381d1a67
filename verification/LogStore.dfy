/** The console log: a ring buffer in memory, rotated files on disk, one cursor over both. */
module LogStore {
  import opened LogPages

  /** Some text, or no file. */
  datatype LogFile = Missing | Present(entries: seq<LogEntry>)

  function Text(f: LogFile): seq<LogEntry> {
    if f.Missing? then [] else f.entries
  }

  /** What the files hold, oldest file (the last) first. */
  function Scan(files: seq<LogFile>): seq<LogEntry> {
    if files == [] then [] else Scan(files[1..]) + Text(files[0])
  }

  // ---------- scanning files ----------

  lemma ScanAppend(files: seq<LogFile>, text: seq<LogEntry>, e: LogEntry)
    requires files != [] && Text(files[0]) == text
    ensures Scan(files[0 := Present(text + [e])]) == Scan(files) + [e]
  {
    assert files[0 := Present(text + [e])][1..] == files[1..];
  }

  lemma ScanShifted(files: seq<LogFile>)
    ensures Scan([Missing] + files) == Scan(files)
  {
    assert ([Missing] + files)[1..] == files;
  }

  /** The last file is scanned first. */
  lemma {:induction false} ScanLast(files: seq<LogFile>)
    requires files != []
    ensures Scan(files) == Text(files[|files| - 1]) + Scan(files[..|files| - 1])
  {
    var n := |files| - 1;
    if n > 0 {
      ScanLast(files[1..]);
      assert files[1..][..n - 1] == files[..n][1..];
    }
  }

  /** The files in use are the newest, and every one of them but the current is full. */
  ghost predicate Filled(files: seq<LogFile>, full: nat, entriesPerFile: nat) {
    forall i :: 1 <= i < |files| ==> if i <= full then |Text(files[i])| == entriesPerFile else files[i].Missing?
  }

  lemma FilledPut(files: seq<LogFile>, full: nat, entriesPerFile: nat, first: LogFile)
    requires files != [] && Filled(files, full, entriesPerFile)
    ensures Filled(files[0 := first], full, entriesPerFile)
  {
  }

  lemma {:induction false} ScanLength(files: seq<LogFile>, full: nat, entriesPerFile: nat)
    requires full < |files| && Filled(files, full, entriesPerFile) && entriesPerFile > 0
    ensures |Scan(files)| == |Text(files[0])| + full * entriesPerFile
  {
    if |files| > 1 {
      ScanLast(files);
      hide Scan;
      var last := full == |files| - 1;
      ScanLength(files[..|files| - 1], if last then full - 1 else full, entriesPerFile);
      if last { Times(full - 1, entriesPerFile); }
    }
  }

  /** Ids at and above a bound never make an entry of the scan older. */
  lemma NumberedAscends(s: seq<LogEntry>)
    requires Numbered(s) && (s != [] ==> s[0].id > 0)
    ensures Ascending(s)
  {
  }

  lemma NumberedDrop(s: seq<LogEntry>, k: nat)
    requires Numbered(s) && k <= |s|
    ensures Numbered(s[k..]) && (k < |s| ==> s[k..] != [] && s[k..][0].id == s[0].id + k)
  {
    assert forall i :: 0 <= i < |s| - k ==> s[k..][i] == s[k + i];
  }

  lemma NumberedAdd(s: seq<LogEntry>, e: LogEntry)
    requires Numbered(s) && (s != [] ==> e.id == s[|s| - 1].id + 1)
    ensures Numbered(s + [e])
  {
  }

  // ---------- rotating ----------

  /** After a rotation what is scanned has lost the last file, if it was in use. */
  lemma RotatedScan(was: seq<LogFile>, full: nat, entriesPerFile: nat)
    requires |was| >= 2 && Filled(was, full, entriesPerFile) && full < |was|
    ensures var lost := if full == |was| - 1 then entriesPerFile else 0;
            lost <= |Scan(was)| && Scan([Missing] + was[..|was| - 1]) == Scan(was)[lost..]
  {
    ScanShifted(was[..|was| - 1]);
    ScanLast(was);
  }

  lemma RotatedFill(was: seq<LogFile>, full: nat, entriesPerFile: nat)
    requires |was| >= 2 && Filled(was, full, entriesPerFile) && full < |was| && |Text(was[0])| == entriesPerFile
    ensures Filled([Missing] + was[..|was| - 1], if full == |was| - 1 then full else full + 1, entriesPerFile)
  {
    var files := [Missing] + was[..|was| - 1];
    forall i | 1 <= i < |files| ensures files[i] == was[i - 1] {}
  }

  // ---------- ring buffer ----------

  function Ring(s: seq<LogEntry>, start: nat): seq<LogEntry> {
    if start < |s| then s[start..] + s[..start] else []
  }

  lemma Wrap(i: nat, n: nat)
    requires i < 2 * n
    ensures i % n == if i < n then i else i - n
  {
  }

  /** Overwriting the oldest entry of a full ring and moving on drops it and adds the new one. */
  lemma Overwrite(s: seq<LogEntry>, start: nat, e: LogEntry)
    requires start < |s|
    ensures Ring(s[start := e], if start + 1 == |s| then 0 else start + 1) == Ring(s, start)[1..] + [e]
  {
  }

  class Buffer {
    const capacity: nat
    var next: nat
    var start: nat
    var entries: seq<LogEntry>

    ghost predicate Valid()
      reads this
    {
      0 < capacity && |entries| <= capacity && start < capacity && (|entries| < capacity ==> start == 0)
    }

    /** Oldest first. */
    ghost function Contents(): seq<LogEntry>
      requires Valid()
      reads this
    {
      Ring(entries, start)
    }

    constructor (capacity: int)
      ensures Valid() && Contents() == [] && next == 0 && this.capacity == if capacity < 1 then 1 else capacity
    {
      this.capacity, next, start, entries := if capacity < 1 then 1 else capacity, 0, 0, [];
    }

    /** Numbers the entry; a full buffer forgets its oldest. */
    method Append(entry: LogEntry) returns (stored: LogEntry)
      requires Valid()
      modifies this
      ensures Valid() && next == old(next) + 1 && stored == entry.(id := next)
      ensures Contents() == Last(capacity, old(Contents()) + [stored])
    {
      next := next + 1;
      stored := entry.(id := next);
      if |entries| < capacity {
        entries := entries + [stored];
        return;
      }
      Overwrite(entries, start, stored);
      ghost var was := Ring(entries, start);
      assert (was + [stored])[1..] == was[1..] + [stored];
      Wrap(start + 1, capacity);
      hide Ring;
      entries := entries[start := stored];
      start := (start + 1) % capacity;
    }

    /** Numbering goes on after a clear. */
    method Clear()
      requires Valid()
      modifies this
      ensures Valid() && Contents() == [] && next == old(next)
    {
      start, entries := 0, [];
    }

    lemma At(i: nat)
      requires Valid() && i < |entries|
      ensures |Contents()| == |entries| && (start + i) % capacity < |entries|
      ensures entries[(start + i) % capacity] == Contents()[i]
    {
      Wrap(start + i, capacity);
    }

    /** The wanted entries, oldest first. */
    method Matching(before: nat, filter: Filter) returns (all: seq<LogEntry>)
      requires Valid()
      ensures all == Kept(Contents(), before, filter) && |all| <= |entries|
    {
      all := [];
      for i := 0 to |entries|
        invariant |Contents()| == |entries| && all == Kept(Contents()[..i], before, filter) && |all| <= i
      {
        At(i);
        var entry := entries[(start + i) % capacity];
        assert Contents()[..i + 1][..i] == Contents()[..i];
        if (before == 0 || entry.id < before) && (filter.Empty() || filter.Match(entry)) {
          all := all + [entry];
        }
      }
      assert Contents()[..|entries|] == Contents();
    }

    /** The newest wanted entries, up to a limit; no positive limit means the whole buffer. */
    method EntriesBefore(limit: int, before: nat, filter: Filter) returns (r: seq<LogEntry>, hasOlder: bool)
      requires Valid()
      ensures var all := Kept(Contents(), before, filter);
              var most := if limit <= 0 then |all| else limit;
              r == Last(most, all) && (hasOlder <==> |all| > most)
    {
      var n := if limit <= 0 || limit > |entries| then |entries| else limit;
      var all := Matching(before, filter);
      if n <= 0 || n > |all| { n := |all|; }
      hasOlder := |all| > n;
      r := if hasOlder then all[|all| - n..] else all;
    }

    method PageNumber(limit: int, page: int, filter: Filter) returns (r: NumberedPage)
      requires Valid()
      ensures r == PageAt(Kept(Contents(), 0, filter), PageLimit(limit, capacity), page)
    {
      var all := Matching(0, filter);
      r := PageAt(all, PageLimit(limit, capacity), page);
    }
  }

  // ---------- rotated files ----------

  /** What a store holds once it has forgotten its oldest entries and taken a new one. */
  function After(s: seq<LogEntry>, lost: nat, e: LogEntry): seq<LogEntry>
    requires lost <= |s|
  {
    s[lost..] + [e]
  }

  class History {
    const entriesPerFile: nat
    const maxFiles: nat
    // the current file first, then the rotated ones
    var files: seq<LogFile>
    // kept by counting, never by reading the files again
    var entryCount: nat
    var retainedEntries: nat
    var oldestID: nat
    // how many rotated files there are
    ghost var full: nat

    ghost predicate Valid()
      reads this
    {
      && 1 <= entriesPerFile && 1 <= maxFiles == |files| && full < maxFiles
      && Filled(files, full, entriesPerFile)
      && Counted()
    }

    ghost function Contents(): seq<LogEntry>
      reads `files
    {
      Scan(files)
    }

    /** The counters say what a full scan of the files would. */
    ghost predicate Counted()
      reads this
      requires files != []
    {
      && entryCount == |Text(files[0])| <= entriesPerFile
      && retainedEntries == |Contents()|
      && (if Contents() == [] then oldestID == 0 else oldestID == Contents()[0].id > 0)
      && Numbered(Contents())
    }

    constructor (entriesPerFile: nat, maxFiles: nat)
      requires 1 <= entriesPerFile && 1 <= maxFiles
      ensures Valid() && Contents() == [] && this.entriesPerFile == entriesPerFile && this.maxFiles == maxFiles
    {
      this.entriesPerFile, this.maxFiles := entriesPerFile, maxFiles;
      files := seq(maxFiles, _ => Missing);
      entryCount, retainedEntries, oldestID, full := 0, 0, 0, 0;
      new;
      ScanLength(files, 0, entriesPerFile);
    }

    /** Removes every file. */
    method Reset()
      requires Valid()
      modifies this
      ensures Valid() && Contents() == []
    {
      files := seq(maxFiles, _ => Missing);
      entryCount, retainedEntries, oldestID, full := 0, 0, 0, 0;
      ScanLength(files, 0, entriesPerFile);
    }

    /** Renames every file to the next number, the highest first. */
    method Shift()
      requires 2 <= maxFiles == |files|
      modifies `files
      ensures files == [Missing] + old(files)[..maxFiles - 1]
    {
      ghost var was := files;
      files := files[maxFiles - 1 := Missing];
      var i: nat := maxFiles - 2;
      while i >= 1
        invariant 0 <= i <= maxFiles - 2 && |files| == maxFiles
        invariant forall j :: i + 1 < j < maxFiles ==> files[j] == was[j - 1]
        invariant forall j :: 0 <= j <= i ==> files[j] == was[j]
        invariant files[i + 1].Missing?
      {
        if files[i].Present? {
          files := files[i + 1 := files[i]][i := Missing];
        }
        i := i - 1;
      }
      if files[0].Present? {
        files := files[1 := files[0]][0 := Missing];
      }
    }

    /** What a rotation gives up: everything when only one file is kept, else the oldest file,
        once all of them are full. */
    ghost function Lost(): nat
      reads this
    {
      if maxFiles <= 1 then |Contents()| else if |Contents()| >= entriesPerFile * maxFiles then entriesPerFile else 0
    }

    /** Whether the last rotated file is in use can be told from the count alone. */
    lemma FullByCount()
      requires Valid() && entryCount == entriesPerFile
      ensures |Contents()| >= entriesPerFile * maxFiles <==> full == maxFiles - 1
    {
      ScanLength(files, full, entriesPerFile);
      hide Scan, Filled, Counted;
      CountTells(full, maxFiles, entriesPerFile);
    }

    /** A rotation drops `Lost()` entries from the front and keeps the counters exact. */
    method Rotate()
      requires Valid() && entryCount == entriesPerFile
      modifies this
      ensures Valid() && entryCount == 0
      ensures old(Lost()) <= |old(Contents())| && Contents() == old(Contents()[Lost()..])
    {
      if maxFiles <= 1 {
        Reset();
        return;
      }
      hide Filled;
      RotationFacts();
      hide Scan, Numbered, Lost;
      CountRotation();
      Shift();
      full := if full == maxFiles - 1 then full else full + 1;
      entryCount := 0;
    }

    lemma RotationFacts()
      requires Valid() && entryCount == entriesPerFile && maxFiles > 1
      ensures Lost() == (if full == maxFiles - 1 then entriesPerFile else 0) < |Contents()|
      ensures Scan([Missing] + files[..maxFiles - 1]) == Contents()[Lost()..]
      ensures Filled([Missing] + files[..maxFiles - 1], if full == maxFiles - 1 then full else full + 1, entriesPerFile)
      ensures Numbered(Contents()[Lost()..]) && Contents()[Lost()..][0].id == Contents()[0].id + Lost()
    {
      FullByCount();
      RemainderStays();
      RotatedScan(files, full, entriesPerFile);
      RotatedFill(files, full, entriesPerFile);
      NumberedDrop(Contents(), if full == maxFiles - 1 then entriesPerFile else 0);
    }

    /** The counters are brought up to date before the files are. */
    method CountRotation()
      requires Valid() && entryCount == entriesPerFile && maxFiles > 1
      modifies `retainedEntries, `oldestID
      ensures old(Lost()) <= old(retainedEntries) && retainedEntries == old(retainedEntries) - old(Lost())
      ensures oldestID == old(oldestID) + old(Lost())
    {
      if retainedEntries >= entriesPerFile * maxFiles {
        LostFits();
        retainedEntries := retainedEntries - entriesPerFile;
        oldestID := oldestID + entriesPerFile;
      }
    }

    lemma RemainderStays()
      requires Valid() && entryCount == entriesPerFile && maxFiles > 1
      ensures |Contents()| > if full == maxFiles - 1 then entriesPerFile else 0
    {
      ScanLength(files, full, entriesPerFile);
      if full == maxFiles - 1 { Product(1, full, entriesPerFile); } else { Times(full, entriesPerFile); }
    }

    /** Writes to the current file. */
    method Put(entry: LogEntry)
      requires Valid() && entry.id > 0 && entryCount < entriesPerFile
      requires Contents() != [] ==> entry.id == Contents()[|Contents()| - 1].id + 1
      modifies this
      ensures Valid() && Contents() == old(Contents()) + [entry]
    {
      ScanAppend(files, Text(files[0]), entry);
      NumberedAdd(Contents(), entry);
      FilledPut(files, full, entriesPerFile, Present(Text(files[0]) + [entry]));
      hide Scan, Numbered, Filled;
      files := files[0 := Present(Text(files[0]) + [entry])];
      entryCount := entryCount + 1;
      retainedEntries := retainedEntries + 1;
      if oldestID == 0 || retainedEntries == 1 {
        oldestID := entry.id;
      }
    }

    /** What the next append gives up. */
    ghost function Forgets(): nat
      reads this
    {
      if entryCount >= entriesPerFile then Lost() else 0
    }

    lemma RoomForMore()
      requires Valid() && maxFiles > 1 && |Contents()| < entriesPerFile * maxFiles
      ensures Forgets() == 0
    {
    }

    /** Rotates first when the current file is full. */
    method Append(entry: LogEntry)
      requires Valid() && entry.id > 0
      requires Contents() != [] ==> entry.id == Contents()[|Contents()| - 1].id + 1
      modifies this
      ensures Valid()
      ensures old(Forgets()) <= |old(Contents())| && Contents() == After(old(Contents()), old(Forgets()), entry)
    {
      LostFits();
      assert entryCount <= entriesPerFile;
      hide Filled, Counted, Lost, Scan;
      if entryCount >= entriesPerFile {
        Rotate();
      }
      Put(entry);
    }

    lemma LostFits()
      requires Valid()
      ensures Lost() <= |Contents()|
    {
      if maxFiles > 1 { Product(1, maxFiles, entriesPerFile); }
    }

    /** Whether anything retained is older than an id, answered from the counters. */
    method HasBefore(id: nat) returns (r: bool)
      requires Valid()
      ensures r <==> id != 0 && exists e <- Contents() :: e.id < id
    {
      r := id != 0 && retainedEntries > 0 && oldestID > 0 && oldestID < id;
      if r {
        assert Contents()[0] in Contents();
      }
    }

    method ReadFile(file: LogFile, before: nat, found: seq<LogEntry>) returns (out: seq<LogEntry>)
      requires Positive(Text(file))
      ensures out == found + Kept(Text(file), before, EVERYTHING)
    {
      out := found;
      if file.Missing? { return; }
      for i := 0 to |file.entries|
        invariant out == found + Kept(file.entries[..i], before, EVERYTHING)
      {
        var entry := file.entries[i];
        assert file.entries[..i + 1][..i] == file.entries[..i];
        assert entry in Text(file);
        if !(entry.id == 0 || (before > 0 && entry.id >= before)) {
          out := out + [entry];
        }
      }
      assert file.entries[..|file.entries|] == file.entries;
    }

    static method FilterEntries(entries: seq<LogEntry>, filter: Filter) returns (r: seq<LogEntry>)
      ensures r == Kept(entries, 0, filter)
    {
      if filter.Empty() {
        KeptEverything(entries);
        return entries;
      }
      r := [];
      for i := 0 to |entries|
        invariant r == Kept(entries[..i], 0, filter)
      {
        assert entries[..i + 1][..i] == entries[..i];
        if filter.Match(entries[i]) { r := r + [entries[i]]; }
      }
      assert entries[..|entries|] == entries;
    }

    /** Reads every file again; no positive limit means one file's worth. */
    method Page(limit: int, before: nat, filter: Filter) returns (r: seq<LogEntry>, hasOlder: bool)
      requires Valid()
      ensures var all := Kept(Contents(), before, filter);
              var most := if limit <= 0 then entriesPerFile else limit;
              r == Last(most, all) && (hasOlder <==> |all| > most)
    {
      var n := if limit <= 0 then entriesPerFile else limit;
      var entries := ReadFiles(before);
      NumberedAscends(Contents());
      KeptAscends(Contents(), before, EVERYTHING);
      SortedStays(entries);
      entries := SortById(entries);
      ReadThenFilter(Contents(), before, filter);
      entries := FilterEntries(entries, filter);
      if n > |entries| { n := |entries|; }
      hasOlder := |entries| > n;
      r := if hasOlder then entries[|entries| - n..] else entries;
    }

    method PageNumber(limit: int, page: int, filter: Filter) returns (r: NumberedPage)
      requires Valid()
      ensures r == PageAt(Kept(Contents(), 0, filter), PageLimit(limit, entriesPerFile), page)
    {
      var entries := ReadFiles(0);
      NumberedAscends(Contents());
      KeptAscends(Contents(), 0, EVERYTHING);
      SortedStays(entries);
      entries := SortById(entries);
      ReadThenFilter(Contents(), 0, filter);
      entries := FilterEntries(entries, filter);
      r := PageAt(entries, PageLimit(limit, entriesPerFile), page);
    }

    lemma ScanPositive()
      requires Valid()
      ensures Positive(Contents())
    {
    }

    method ReadFiles(before: nat) returns (entries: seq<LogEntry>)
      requires Valid()
      ensures entries == Kept(Contents(), before, EVERYTHING)
    {
      entries := [];
      var i := |files|;
      ScanPositive();
      hide Valid, Kept, Scan, Positive;
      ScanNone(files, before);
      while i > 0
        invariant 0 <= i <= |files| && entries == Kept(Scan(files[i..]), before, EVERYTHING)
      {
        i := i - 1;
        ScanNext(files, i, before);
        entries := ReadFile(files[i], before, entries);
      }
      assert files[0..] == files;
    }
  }

  // ---------- the logger ----------

  /** Both stores hold ends of one run of entries, and the buffer is not the empty one. */
  ghost predicate Ends(b: seq<LogEntry>, h: seq<LogEntry>, issued: seq<LogEntry>) {
    Suffix(b, issued) && Suffix(h, issued) && (b == [] ==> h == [])
  }

  /** The entries numbered since the last clear, and what the stores hold of them. */
  ghost predicate Consistent(b: seq<LogEntry>, h: seq<LogEntry>, issued: seq<LogEntry>, next: nat) {
    && Numbered(issued) && Ends(b, h, issued)
    && (issued != [] ==> b != [] && issued[0].id > 0 && issued[|issued| - 1].id == next)
  }

  function Overflow(n: nat, s: seq<LogEntry>): nat {
    if |s| < n then 0 else |s| + 1 - n
  }

  lemma EndGrows(a: seq<LogEntry>, s: seq<LogEntry>, lost: nat, e: LogEntry)
    requires Suffix(a, s) && lost <= |a|
    ensures Suffix(After(a, lost, e), s + [e]) && After(a, lost, e) != []
  {
  }

  lemma LastDrops(n: nat, s: seq<LogEntry>, e: LogEntry)
    requires n > 0
    ensures Overflow(n, s) <= |s| && Last(n, s + [e]) == After(s, Overflow(n, s), e)
  {
  }

  /** A store that forgets some of its oldest entries and takes the new one stays an end. */
  lemma WriteKeeps(b: seq<LogEntry>, h: seq<LogEntry>, issued: seq<LogEntry>, next: nat, capacity: nat, lost: nat,
                   e: LogEntry, stored: seq<LogEntry>)
    requires Consistent(b, h, issued, next) && capacity > 0 && lost <= |h| && e.id == next + 1
    requires stored == [] || stored == After(h, lost, e)
    ensures Consistent(Last(capacity, b + [e]), stored, issued + [e], e.id)
  {
    hide After, Last, Overflow, Suffix, Numbered;
    NumberedAdd(issued, e);
    LastDrops(capacity, b, e);
    EndGrows(b, issued, Overflow(capacity, b), e);
    EndGrows(h, issued, lost, e);
    NoneIsEnd(issued + [e]);
    assert (issued + [e])[0].id > 0;
  }

  lemma NoneIsEnd(s: seq<LogEntry>)
    ensures Suffix([], s)
  {
  }

  lemma StoredLast(b: seq<LogEntry>, h: seq<LogEntry>, issued: seq<LogEntry>, next: nat)
    requires Consistent(b, h, issued, next)
    ensures h != [] ==> h[|h| - 1].id == next
  {
  }

  /** Whether a page leaves anything out can be told from the first id it lists. */
  lemma PageLeavesOut(u: seq<LogEntry>, before: nat, entries: seq<LogEntry>)
    requires Ascending(u) && Suffix(entries, Kept(u, before, EVERYTHING)) && entries != []
    ensures |entries| < |Kept(u, before, EVERYTHING)| <==> exists e <- u :: e.id < entries[0].id
  {
    var kept := Kept(u, before, EVERYTHING);
    var k := |kept| - |entries|;
    assert entries[0] == kept[k];
    hide Suffix, Kept, Ascending;
    OlderIsListed(u, before, k);
  }

  /** Below everything the buffer has, what is left is in the history. */
  lemma OlderIsStored(b: seq<LogEntry>, h: seq<LogEntry>, issued: seq<LogEntry>, before: nat, f: Filter)
    requires Ends(b, h, issued) && Kept(b, before, f) == []
    ensures Kept(Longer(b, h), before, f) == Kept(h, before, f)
  {
    LongerIsSuffix(b, h, issued);
    KeptSuffix(h, Longer(b, h), before, f);
  }

  /** An unfiltered page out of the buffer, with the flag raised by what the history knows. */
  lemma BufferPage(b: seq<LogEntry>, h: seq<LogEntry>, issued: seq<LogEntry>, before: nat, entries: seq<LogEntry>)
    requires Ascending(issued) && Ends(b, h, issued)
    requires Suffix(entries, Kept(b, before, EVERYTHING)) && entries != []
    ensures Suffix(entries, Kept(Longer(b, h), before, EVERYTHING))
    ensures |entries| < |Kept(Longer(b, h), before, EVERYTHING)|
            <==> |entries| < |Kept(b, before, EVERYTHING)| || exists e <- h :: e.id < entries[0].id
  {
    hide Ascending, Kept, Suffix;
    var u := Longer(b, h);
    LongerIsSuffix(b, h, issued);
    SuffixAscends(u, issued);
    KeptSuffix(b, u, before, EVERYTHING);
    SuffixTransitive(entries, Kept(b, before, EVERYTHING), Kept(u, before, EVERYTHING));
    PageLeavesOut(u, before, entries);
    OlderStays(h, u, entries[0].id);
    hide Ends;
  }

  lemma BufferIsPage(b: seq<LogEntry>, before: nat, f: Filter, limit: int, entries: seq<LogEntry>)
    requires var all := Kept(b, before, f); entries == Last(if limit <= 0 then |all| else limit, all)
    ensures PageOf(LogPage(entries, |entries| < |Kept(b, before, f)|), Kept(b, before, f), limit)
  {
    hide Kept;
  }

  /** The page out of the buffer, before it is asked whether the history goes back further. */
  lemma RecentIsPage(b: seq<LogEntry>, h: seq<LogEntry>, issued: seq<LogEntry>, before: nat, limit: int,
                     entries: seq<LogEntry>, hasOlder: bool)
    requires Ascending(issued) && Ends(b, h, issued) && (before == 0 || entries != [])
    requires var all := Kept(b, before, EVERYTHING); entries == Last(if limit <= 0 then |all| else limit, all)
    requires hasOlder
             <==> |entries| < |Kept(b, before, EVERYTHING)| || (entries != [] && exists e <- h :: e.id < entries[0].id)
    ensures PageOf(LogPage(entries, hasOlder), Kept(Longer(b, h), before, EVERYTHING), limit)
  {
    LastIsSuffix(if limit <= 0 then |Kept(b, before, EVERYTHING)| else limit, Kept(b, before, EVERYTHING));
    if entries == [] {
      KeptEverything(b);
      KeptEverything(h);
    } else {
      hide Kept, Ascending;
      BufferPage(b, h, issued, before, entries);
    }
  }

  lemma OlderStays(h: seq<LogEntry>, u: seq<LogEntry>, id: nat)
    requires Suffix(h, u)
    ensures (exists e <- h :: e.id < id) ==> exists e <- u :: e.id < id
  {
  }

  lemma LongerIsSuffix(b: seq<LogEntry>, h: seq<LogEntry>, issued: seq<LogEntry>)
    requires Suffix(b, issued) && Suffix(h, issued)
    ensures Suffix(Longer(b, h), issued) && Suffix(b, Longer(b, h)) && Suffix(h, Longer(b, h))
  {
    if |b| >= |h| { SuffixesNest(b, h, issued); } else { SuffixesNest(h, b, issued); }
  }

  lemma SuffixTransitive(a: seq<LogEntry>, b: seq<LogEntry>, c: seq<LogEntry>)
    requires Suffix(a, b) && Suffix(b, c)
    ensures Suffix(a, c) && |a| <= |b| <= |c|
  {
  }

  lemma LastIsSuffix(n: nat, s: seq<LogEntry>)
    ensures Suffix(Last(n, s), s)
  {
  }

  lemma LastIsPage(n: nat, m: seq<LogEntry>, limit: int)
    requires n > 0 || m == []
    requires limit > 0 ==> n <= limit
    ensures PageOf(LogPage(Last(n, m), |m| > n), m, limit)
  {
  }

  /** What a filtered page merges: the last matches of the buffer and of the history. */
  lemma Merged(b: seq<LogEntry>, h: seq<LogEntry>, issued: seq<LogEntry>, before: nat, f: Filter, n: nat, m: nat)
    requires Ascending(issued) && Ends(b, h, issued)
    ensures var bs, hs := Last(n, Kept(b, before, f)), Last(m, Kept(h, before, f));
            SortById(Unseen(hs + bs, {})) == Longer(hs, bs)
  {
    var bm, hm, all := Kept(b, before, f), Kept(h, before, f), Kept(issued, before, f);
    KeptAscends(issued, before, f);
    KeptSuffix(b, issued, before, f);
    KeptSuffix(h, issued, before, f);
    LastIsSuffix(n, bm);
    LastIsSuffix(m, hm);
    SuffixTransitive(Last(n, bm), bm, all);
    SuffixTransitive(Last(m, hm), hm, all);
    MergeOfEnds(Last(m, hm), Last(n, bm), all);
  }

  /** With a limit, that is the last matches of both together. */
  lemma MergedIsLast(b: seq<LogEntry>, h: seq<LogEntry>, issued: seq<LogEntry>, before: nat, f: Filter, n: nat)
    requires Ascending(issued) && Ends(b, h, issued)
    ensures var bm, hm, m := Kept(b, before, f), Kept(h, before, f), Kept(Longer(b, h), before, f);
            Longer(Last(n, hm), Last(n, bm)) == Last(n, m) && |m| == (if |bm| >= |hm| then |bm| else |hm|)
  {
    LongerIsSuffix(b, h, issued);
    KeptSuffix(b, Longer(b, h), before, f);
    KeptSuffix(h, Longer(b, h), before, f);
  }

  /** Without a limit the flag of a filtered page can be wrong: exactly when more than a file's
      worth matches in the history and the buffer holds all of those matches too. */
  lemma UnlimitedFlag(b: seq<LogEntry>, h: seq<LogEntry>, issued: seq<LogEntry>, before: nat, f: Filter, worth: nat)
    requires Ascending(issued) && Ends(b, h, issued)
    ensures var bm, hm, m := Kept(b, before, f), Kept(h, before, f), Kept(Longer(b, h), before, f);
            (|hm| > worth <==> |Longer(Last(worth, hm), bm)| < |m|) <==> !(|hm| > worth && |bm| >= |hm|)
  {
    MergedIsLast(b, h, issued, before, f, worth);
  }

  /** Adds the entries of one list whose id has not come up. */
  method AddUnseen(found: seq<LogEntry>, seen: set<nat>, page: seq<LogEntry>, ghost rest: seq<LogEntry>)
    returns (entries: seq<LogEntry>, ids: set<nat>)
    ensures entries + Unseen(rest, ids) == found + Unseen(page + rest, seen)
  {
    entries, ids := found, seen;
    assert page[0..] == page;
    for i := 0 to |page|
      invariant entries + Unseen(page[i..] + rest, ids) == found + Unseen(page + rest, seen)
    {
      ghost var left := page[i..] + rest;
      assert left[1..] == page[i + 1..] + rest && left[0] == page[i];
      ghost var before, now := entries, ids;
      var entry := page[i];
      if entry.id > 0 && entry.id in ids { continue; }
      if entry.id > 0 { ids := ids + {entry.id}; }
      entries := entries + [entry];
      assert before + ([entry] + Unseen(left[1..], ids)) == entries + Unseen(left[1..], ids);
    }
    assert page[|page|..] + rest == rest;
  }

  /** Merges two lists by id; whether the limit cut anything off. */
  method MergeEntries(limit: int, a: seq<LogEntry>, b: seq<LogEntry>) returns (r: seq<LogEntry>, truncated: bool)
    ensures var all := SortById(Unseen(a + b, {}));
            if limit <= 0 || limit >= |all| then r == all && !truncated else r == Last(limit, all) && truncated
  {
    var entries, seen := AddUnseen([], {}, a, b);
    assert b + [] == b;
    entries, seen := AddUnseen(entries, seen, b, []);
    assert entries + [] == entries == Unseen(a + b, {});
    entries := SortById(entries);
    if limit <= 0 || limit >= |entries| { return entries, false; }
    r, truncated := entries[|entries| - limit..], true;
  }

  class Logger {
    const buffer: Buffer
    var history: History?
    // every entry numbered since the last clear
    ghost var issued: seq<LogEntry>

    ghost predicate Valid()
      reads this, buffer, history
    {
      && buffer.Valid() && (history != null ==> history.Valid())
      && Consistent(buffer.Contents(), Stored(), issued, buffer.next)
    }

    ghost function Stored(): seq<LogEntry>
      reads `history, history
    {
      if history == null then [] else history.Contents()
    }

    /** Everything that can still be listed: the stores overlap, and one reaches back further. */
    ghost function Retained(): seq<LogEntry>
      requires buffer.Valid()
      reads this, buffer, history
    {
      Longer(buffer.Contents(), Stored())
    }

    constructor (capacity: int)
      ensures Valid() && Retained() == [] && buffer.Contents() == [] && history == null && fresh(buffer)
      ensures buffer.capacity == if capacity < 1 then 1 else capacity
    {
      buffer := new Buffer(capacity);
      history, issued := null, [];
    }

    /** Files written from now on; what an earlier history held is gone. */
    method EnableHistory(entriesPerFile: nat, maxFiles: nat)
      requires Valid() && 1 <= entriesPerFile && 1 <= maxFiles
      modifies `history
      ensures Valid() && fresh(history) && Stored() == [] && Retained() == buffer.Contents()
      ensures history.entriesPerFile == entriesPerFile && history.maxFiles == maxFiles
    {
      var h := new History(entriesPerFile, maxFiles);
      history := h;
    }

    ghost function Forgets(): nat
      reads `history, history
    {
      if history == null then 0 else history.Forgets()
    }

    method Keep(stored: LogEntry)
      requires (history != null ==> history.Valid()) && stored.id > 0
      requires Stored() != [] ==> stored.id == Stored()[|Stored()| - 1].id + 1
      modifies history
      ensures (history != null ==> history.Valid()) && old(Forgets()) <= |old(Stored())|
      ensures Stored() == if history == null then [] else After(old(Stored()), old(Forgets()), stored)
    {
      if history != null {
        history.Append(stored);
      }
    }

    /** A new entry is numbered once and reaches both stores. */
    method Write(entry: LogEntry) returns (stored: LogEntry)
      requires Valid()
      modifies `issued, buffer, history
      ensures Valid() && stored == entry.(id := old(buffer.next) + 1) && buffer.next == stored.id
      ensures issued == old(issued) + [stored]
      ensures buffer.Contents() == Last(buffer.capacity, old(buffer.Contents()) + [stored])
      ensures old(Forgets()) <= |old(Stored())|
      ensures Stored() == if history == null then [] else After(old(Stored()), old(Forgets()), stored)
    {
      ghost var b, h, next := buffer.Contents(), Stored(), buffer.next;
      assert buffer.capacity > 0;
      hide Consistent, Ends, Last, After;
      hide Buffer.Valid, Buffer.Contents, History.Valid, History.Contents, History.Forgets;
      StoredLast(b, h, issued, next);
      stored := buffer.Append(entry);
      ghost var lost := Forgets();
      Keep(stored);
      WriteKeeps(b, h, issued, next, buffer.capacity, lost, stored, Stored());
      issued := issued + [stored];
    }

    /** What a walk over unfiltered pages lists is everything retained. */
    lemma RetainedIsRun()
      requires Valid()
      ensures Ascending(Retained()) && Kept(Retained(), 0, EVERYTHING) == Retained()
    {
      NumberedAscends(issued);
      LongerIsSuffix(buffer.Contents(), Stored(), issued);
      SuffixAscends(Retained(), issued);
      KeptEverything(Retained());
    }

    /** What a call to the buffer answers, in terms of everything it holds. */
    ghost predicate FromBuffer(limit: int, before: nat, filter: Filter, entries: seq<LogEntry>, hasOlder: bool)
      requires buffer.Valid()
      reads this, buffer
    {
      var all := Kept(buffer.Contents(), before, filter);
      var most := if limit <= 0 then |all| else limit;
      entries == Last(most, all) && (hasOlder <==> |all| > most)
    }

    /** With a filter, the last matches of both stores are merged. */
    method MergedPage(limit: int, before: nat, filter: Filter, entries: seq<LogEntry>, hasOlder: bool)
      returns (page: LogPage)
      requires Valid() && history != null && FromBuffer(limit, before, filter, entries, hasOlder)
      ensures limit > 0 ==>
                var m := Kept(Retained(), before, filter);
                page == LogPage(Last(limit, m), |m| > limit)
      ensures limit <= 0 ==>
                var bm, hm := Kept(buffer.Contents(), before, filter), Kept(Stored(), before, filter);
                page == LogPage(Longer(Last(history.entriesPerFile, hm), bm), |hm| > history.entriesPerFile)
    {
      ghost var b, h := buffer.Contents(), Stored();
      ghost var bm, hm := Kept(b, before, filter), Kept(h, before, filter);
      NumberedAscends(issued);
      assert Ends(b, h, issued);
      hide Kept, Ascending, Numbered, Ends, Consistent, SortById, Unseen, Longer;
      hide Buffer.Valid, Buffer.Contents, History.Valid, History.Contents;
      var older, olderYet := history.Page(limit, before, filter);
      Merged(b, h, issued, before, filter, if limit <= 0 then |bm| else limit,
             if limit <= 0 then history.entriesPerFile else limit);
      if limit > 0 { MergedIsLast(b, h, issued, before, filter, limit); }
      var merged, truncated := MergeEntries(limit, older, entries);
      page := LogPage(merged, hasOlder || olderYet || truncated);
    }

    /** Out of the buffer; the history only says whether there is anything older. */
    method RecentPage(limit: int, before: nat, filter: Filter, entries: seq<LogEntry>, hasOlder: bool)
      returns (page: LogPage)
      requires Valid() && FromBuffer(limit, before, filter, entries, hasOlder)
      requires (history != null ==> filter.Empty()) && (before == 0 || entries != [])
      ensures PageOf(page, Kept(Retained(), before, filter), limit)
      ensures page.entries == entries && (history == null ==> page.hasOlder == hasOlder)
    {
      ghost var b, h := buffer.Contents(), Stored();
      NumberedAscends(issued);
      assert Ends(b, h, issued);
      page := LogPage(entries, hasOlder);
      if history == null {
        assert h == [] && Longer(b, h) == b;
        hide Kept, Consistent, Filter.Empty, Filter.Match, Buffer.Valid, Buffer.Contents;
        BufferIsPage(b, before, filter, limit, entries);
      } else {
        EmptyFilter(filter);
        hide Kept, Ascending, Numbered, Consistent, Filter.Empty, Filter.Match, Suffix, Ends, PageOf;
        hide Buffer.Valid, History.Valid, Buffer.Contents, History.Contents;
        var older: bool := false;
        if entries != [] { older := history.HasBefore(entries[0].id); }
        if older { page := LogPage(entries, true); }
        RecentIsPage(b, h, issued, before, limit, entries, page.hasOlder);
      }
    }

    /** Below everything the buffer holds, out of the files. */
    method OlderPage(limit: int, before: nat, filter: Filter, ghost entries: seq<LogEntry>, ghost hasOlder: bool)
      returns (page: LogPage)
      requires Valid() && FromBuffer(limit, before, filter, entries, hasOlder) && entries == []
      requires history != null ==> filter.Empty()
      ensures PageOf(page, Kept(Retained(), before, filter), limit)
      ensures history == null ==> page == LogPage(entries, hasOlder)
    {
      ghost var b, h := buffer.Contents(), Stored();
      assert Ends(b, h, issued) && Kept(b, before, filter) == [];
      assert history != null ==> history.entriesPerFile > 0;
      OlderIsStored(b, h, issued, before, filter);
      hide Kept, Ascending, Numbered, Consistent, Last, PageOf;
      hide Buffer.Valid, Buffer.Contents, History.Valid, History.Contents;
      if history != null {
        var older, olderYet := history.Page(limit, before, filter);
        page := LogPage(older, olderYet);
        LastIsPage(if limit <= 0 then history.entriesPerFile else limit, Kept(h, before, filter), limit);
      } else {
        var again, flag := buffer.EntriesBefore(limit, before, filter);
        page := LogPage(again, flag);
        LastIsPage(if limit <= 0 then 0 else limit, [], limit);
      }
    }

    /** The newest wanted entries below a cursor. */
    method Page(limit: int, before: nat, filter: Filter) returns (page: LogPage)
      requires Valid()
      ensures filter.Empty() || limit > 0 ==> PageOf(page, Kept(Retained(), before, filter), limit)
      ensures history == null ==> FromBuffer(limit, before, filter, page.entries, page.hasOlder)
      ensures history != null && !filter.Empty() && limit > 0 ==>
                var m := Kept(Retained(), before, filter);
                page == LogPage(Last(limit, m), |m| > limit)
      ensures history != null && !filter.Empty() && limit <= 0 ==>
                var bm, hm := Kept(buffer.Contents(), before, filter), Kept(Stored(), before, filter);
                page == LogPage(Longer(Last(history.entriesPerFile, hm), bm), |hm| > history.entriesPerFile)
    {
      hide Kept, Ascending, Numbered, Consistent, Last, Longer, PageOf;
      hide Buffer.Valid, Buffer.Contents, History.Valid, History.Contents;
      var entries, hasOlder := buffer.EntriesBefore(limit, before, filter);
      if history != null && !filter.Empty() {
        page := MergedPage(limit, before, filter, entries, hasOlder);
        if limit > 0 { LastIsPage(limit, Kept(Retained(), before, filter), limit); }
      } else {
        if before == 0 || entries != [] {
          page := RecentPage(limit, before, filter, entries, hasOlder);
        } else {
          page := OlderPage(limit, before, filter, entries, hasOlder);
        }
      }
    }

    /** A page, and what is then still to be listed. */
    method Next(limit: int, before: nat, filter: Filter, all: seq<LogEntry>) returns (page: LogPage)
      requires Valid() && (filter.Empty() || limit > 0)
      requires Kept(Retained(), 0, filter) == Kept(Retained(), before, filter) + all
      ensures Kept(Retained(), before, filter) != [] ==> page.entries != []
      ensures !page.hasOlder ==> Kept(Retained(), 0, filter) == page.entries + all
      ensures page.hasOlder ==>
                && page.entries != []
                && 0 < |Kept(Retained(), page.entries[0].id, filter)| < |Kept(Retained(), before, filter)|
                && Kept(Retained(), 0, filter) == Kept(Retained(), page.entries[0].id, filter) + (page.entries + all)
    {
      page := Page(limit, before, filter);
      RetainedIsRun();
      WalkStep(page, Retained(), before, filter, limit, all);
    }

    /** The walk a client makes: page after page below the first entry of the one before, until
        nothing older is reported.  It lists everything wanted, once and in order. */
    method ListAll(limit: int, filter: Filter) returns (all: seq<LogEntry>, calls: nat)
      requires Valid() && (filter.Empty() || limit > 0)
      ensures all == Kept(Retained(), 0, filter) && (filter == EVERYTHING ==> all == Retained())
      ensures calls <= 1 || calls <= |all|
    {
      hide Kept, Ascending, PageOf, Longer, Last, Consistent;
      hide Buffer.Valid, Buffer.Contents, History.Valid, History.Contents, Filter.Match, Filter.Empty;
      RetainedIsRun();
      var page := Next(limit, 0, filter, []);
      all, calls := page.entries, 1;
      while page.hasOlder
        invariant calls <= |all| || (!page.hasOlder && calls == 1)
        invariant page.hasOlder ==> page.entries != []
        invariant if page.hasOlder
                  then && Kept(Retained(), 0, filter) == Kept(Retained(), page.entries[0].id, filter) + all
                       && Kept(Retained(), page.entries[0].id, filter) != []
                  else Kept(Retained(), 0, filter) == all
        decreases if page.hasOlder then 1 + |Kept(Retained(), page.entries[0].id, filter)| else 0
      {
        page := Next(limit, page.entries[0].id, filter, all);
        all, calls := page.entries + all, calls + 1;
      }
    }

    ghost function Listed(): seq<LogEntry>
      requires buffer.Valid()
      reads this, buffer, history
    {
      if history == null then buffer.Contents() else Stored()
    }

    /** Numbered pages come from the history alone once there is one. */
    method PageNumber(limit: int, page: int, filter: Filter) returns (r: NumberedPage)
      requires Valid()
      ensures var fallback := if history != null then history.entriesPerFile else buffer.capacity;
              r == PageAt(Kept(Listed(), 0, filter), PageLimit(limit, fallback), page)
    {
      if history != null {
        r := history.PageNumber(limit, page, filter);
      } else {
        r := buffer.PageNumber(limit, page, filter);
      }
    }

    /** So they list all that is retained exactly when the buffer has no more matches than the
        history; entries from before the history was enabled are only in the buffer. */
    lemma NumberedPagesMiss(filter: Filter)
      requires Valid()
      ensures Kept(Listed(), 0, filter) == Kept(Retained(), 0, filter)
              <==> history == null || |Kept(buffer.Contents(), 0, filter)| <= |Kept(Stored(), 0, filter)|
    {
      var b, h := buffer.Contents(), Stored();
      assert Ends(b, h, issued);
      LongerIsSuffix(b, h, issued);
      KeptSuffix(b, Longer(b, h), 0, filter);
      KeptSuffix(h, Longer(b, h), 0, filter);
      hide Kept, Ends, Consistent, Buffer.Valid, History.Valid, Buffer.Contents, History.Contents;
    }

    method Clear()
      requires Valid()
      modifies this, buffer, history
      ensures Valid() && Retained() == [] && history == old(history) && buffer.next == old(buffer.next)
    {
      if history != null { history.Reset(); }
      buffer.Clear();
      issued := [];
    }
  }

  lemma BothKept(s: seq<LogEntry>, f: Filter)
    requires |s| == 2 && Wanted(s[0], 0, f) && Wanted(s[1], 0, f)
    ensures Kept(s, 0, f) == s
  {
    assert s[..1] == [s[0]] && [s[0]][..0] == [];
    assert Kept([], 0, f) == [] && Kept([s[0]], 0, f) == [s[0]];
  }

  /** Two warnings with one entry per file: the page lists both and claims that more are older. */
  method UnlimitedFlagCanBeWrong(a: string, b: string) returns (log: Logger, page: LogPage)
    ensures fresh(log) && log.Valid()
    ensures page == LogPage(log.Retained(), true) && |page.entries| == 2
  {
    hide Consistent, Kept, Buffer.Valid, Buffer.Contents, History.Valid, History.Contents, History.Forgets;
    log := new Logger(2);
    log.EnableHistory(1, 2);
    log.history.RoomForMore();
    var first := log.Write(LogEntry(0, "warn", a));
    assert log.Stored() == [first] && log.buffer.Contents() == [first];
    log.history.RoomForMore();
    var second := log.Write(LogEntry(0, "warn", b));
    assert log.Stored() == [first, second] && log.buffer.Contents() == [first, second];
    BothKept([first, second], Filter({"warn"}, ""));
    page := log.Page(0, 0, Filter({"warn"}, ""));
  }

  ghost predicate Positive(s: seq<LogEntry>) {
    forall e <- s :: e.id > 0
  }

  lemma ScanNone(files: seq<LogFile>, before: nat)
    ensures Kept(Scan(files[|files|..]), before, EVERYTHING) == []
  {
  }

  lemma {:induction false} TextPositive(files: seq<LogFile>, i: nat)
    requires i < |files| && Positive(Scan(files))
    ensures Positive(Text(files[i]))
  {
    var older, text := Scan(files[1..]), Text(files[0]);
    assert Scan(files) == older + text;
    forall e | e in older || e in text ensures e.id > 0 {
      assert e in older + text;
    }
    if i > 0 { TextPositive(files[1..], i - 1); }
  }

  lemma ScanNext(files: seq<LogFile>, i: nat, before: nat)
    requires i < |files| && Positive(Scan(files))
    ensures Positive(Text(files[i]))
    ensures Kept(Scan(files[i..]), before, EVERYTHING)
         == Kept(Scan(files[i + 1..]), before, EVERYTHING) + Kept(Text(files[i]), before, EVERYTHING)
  {
    TextPositive(files, i);
    assert files[i..][1..] == files[i + 1..];
    KeptSplit(Scan(files[i + 1..]), Text(files[i]), before, EVERYTHING);
  }

  lemma CountTells(full: nat, maxFiles: nat, entriesPerFile: nat)
    requires full < maxFiles && entriesPerFile > 0
    ensures entriesPerFile + full * entriesPerFile >= entriesPerFile * maxFiles <==> full == maxFiles - 1
  {
    Times(full, entriesPerFile);
    if full < maxFiles - 1 {
      Product(full + 2, maxFiles, entriesPerFile);
      Times(full + 1, entriesPerFile);
    }
  }

  lemma Product(a: int, b: int, n: nat)
    requires 1 <= a <= b
    ensures a * n <= b * n
  {
    if n > 0 { Times(b - a, n); }
    assert b * n == a * n + (b - a) * n;
  }
}
