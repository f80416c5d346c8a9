/** Uploads into a remote directory and the names they choose on a collision. */
module Naming {
  import opened Bytes
  import opened Decimal

  const ATTEMPTS: nat := 10000

  /** What is known by a base name inside the directory. */
  datatype Entry = File(data: seq<byte>) | Directory

  /** The plain name, then the name with a decimal suffix. */
  function Candidate(name: string, i: nat): string {
    if i == 0 then name else name + ("." + FormatNat(i))
  }

  lemma CandidateInjective(name: string, i: nat, j: nat)
    requires Candidate(name, i) == Candidate(name, j)
    ensures i == j
  {
    if i > 0 && j > 0 {
      assert Candidate(name, i)[|name| + 1..] == FormatNat(i);
      assert Candidate(name, j)[|name| + 1..] == FormatNat(j);
      FormatNatInjective(i, j);
    }
  }

  /** The plain name first; then the name, a dot and the number in decimal. */
  lemma CandidateReads(name: string, i: nat)
    ensures Candidate(name, 0) == name
    ensures i > 0 ==>
              var c := Candidate(name, i);
              |c| > |name| && c[..|name|] == name && c[|name|] == '.' && ParseNat(c[|name| + 1..]) == Some(i)
  {
    if i > 0 {
      var c := Candidate(name, i);
      assert c[..|name|] == name && c[|name| + 1..] == FormatNat(i);
      ParseFormatNat(i);
    }
  }

  ghost predicate Taken(name: string, files: seq<string>, n: nat) {
    forall j | 0 <= j < n :: Candidate(name, j) in files
  }

  /** The free candidate with the least suffix or, when all are taken, the name as it was. */
  ghost predicate IsChoice(name: string, files: seq<string>, chosen: string) {
    || (exists i: nat | i < ATTEMPTS ::
          chosen == Candidate(name, i) && chosen !in files && Taken(name, files, i))
    || (chosen == name && Taken(name, files, ATTEMPTS))
  }

  method IsUnique(name: string, files: seq<string>) returns (unique: bool)
    ensures unique <==> name !in files
  {
    for i := 0 to |files|
      invariant name !in files[..i]
    {
      if files[i] == name {
        return false;
      }
    }
    assert files[..|files|] == files;
    return true;
  }

  /** The naming loop of an upload to the downloads directory. */
  method ChooseName(name: string, files: seq<string>) returns (chosen: string)
    ensures IsChoice(name, files, chosen)
  {
    chosen := name;
    var unique := IsUnique(name, files);
    if unique {
      assert chosen == Candidate(name, 0);
      return;
    }
    for i := 1 to ATTEMPTS
      invariant Taken(name, files, i)
    {
      var numbered := Candidate(name, i);
      unique := IsUnique(numbered, files);
      if unique {
        return numbered;
      }
    }
  }

  // ----- when the choice is free -----

  /** Removing one occurrence keeps every other member. */
  lemma WithoutOne<T>(s: seq<T>, k: nat, x: T)
    requires k < |s| && x in s && x != s[k]
    ensures x in s[..k] + s[k + 1..]
  {
    var j :| 0 <= j < |s| && s[j] == x;
    var rest := s[..k] + s[k + 1..];
    assert rest[if j < k then j else j - 1] == x;
  }

  /** The first n candidates are n different names, so a listing that holds them all has n entries. */
  lemma {:induction false} TakenNeedsEntries(name: string, files: seq<string>, n: nat)
    requires Taken(name, files, n)
    ensures |files| >= n
  {
    if n > 0 {
      var last := Candidate(name, n - 1);
      var k :| 0 <= k < |files| && files[k] == last;
      var rest := files[..k] + files[k + 1..];
      forall j | 0 <= j < n - 1 ensures Candidate(name, j) in rest {
        if Candidate(name, j) == last {
          CandidateInjective(name, j, n - 1);
        }
        WithoutOne(files, k, Candidate(name, j));
      }
      TakenNeedsEntries(name, rest, n - 1);
    }
  }

  /** The choice is free exactly when one of the 10000 candidates is. */
  lemma FreeIff(name: string, files: seq<string>, chosen: string)
    requires IsChoice(name, files, chosen)
    ensures chosen !in files <==> exists i: nat | i < ATTEMPTS :: Candidate(name, i) !in files
  {
    assert Candidate(name, 0) == name;
    if Taken(name, files, ATTEMPTS) {
      assert chosen in files;
    }
  }

  /** Fewer than 10000 entries leave a candidate free, whatever their names are. */
  lemma SmallListingIsSafe(name: string, files: seq<string>, chosen: string)
    requires IsChoice(name, files, chosen) && |files| < ATTEMPTS
    ensures chosen !in files
  {
    if Taken(name, files, ATTEMPTS) {
      TakenNeedsEntries(name, files, ATTEMPTS);
    }
  }

  /** The bound is exact: some listing of 10000 names makes the choice one of them. */
  lemma FullListing(name: string, files: seq<string>, chosen: string)
    requires files == seq(ATTEMPTS, i requires 0 <= i < ATTEMPTS => Candidate(name, i))
    requires IsChoice(name, files, chosen)
    ensures |files| == ATTEMPTS && chosen == name && chosen in files
  {
    forall i: nat | i < ATTEMPTS ensures Candidate(name, i) in files {
      assert files[i] == Candidate(name, i);
    }
    assert Candidate(name, 0) == name;
  }

  /** There is only one choice. */
  lemma ChoiceIsUnique(name: string, files: seq<string>, a: string, b: string)
    requires IsChoice(name, files, a) && IsChoice(name, files, b)
    ensures a == b
  {
    assert Candidate(name, 0) == name;
    if a !in files && b !in files {
      var i: nat :| i < ATTEMPTS && a == Candidate(name, i) && Taken(name, files, i);
      var j: nat :| j < ATTEMPTS && b == Candidate(name, j) && Taken(name, files, j);
    }
  }

  // ----- uploads -----

  /** A remote directory. Any operation may fail unless the server is `reliable`. */
  class RemoteDir {
    const reliable: bool
    var entries: map<string, Entry>

    constructor (reliable: bool)
      ensures this.reliable == reliable && entries == map[]
    {
      this.reliable, entries := reliable, map[];
    }

    /** Each name once, in any order. */
    method ReadDir() returns (names: Option<seq<string>>)
      ensures reliable ==> names.Some?
      ensures names.Some? ==> |names.value| == |entries| && forall n :: n in names.value <==> n in entries
    {
      var down: bool := *;
      if down && !reliable {
        return None;
      }
      var left, listed := entries.Keys, [];
      while left != {}
        invariant left <= entries.Keys && |listed| + |left| == |entries.Keys|
        invariant forall n :: n in listed <==> n in entries.Keys - left
        decreases |left|
      {
        var n :| n in left;
        left, listed := left - {n}, listed + [n];
      }
      return Some(listed);
    }

    /** Opens a file empty, cutting off one that is already there. */
    method Create(name: string) returns (ok: bool)
      modifies this
      ensures ok ==> entries == old(entries)[name := File([])]
      ensures !ok ==> entries == old(entries)
      ensures reliable && !(name in old(entries) && old(entries)[name].Directory?) ==> ok
    {
      var down: bool := *;
      if (down && !reliable) || (name in entries && entries[name].Directory?) {
        return false;
      }
      entries := entries[name := File([])];
      return true;
    }

    /** A failing write may leave part of the data. */
    method Write(name: string, data: seq<byte>) returns (ok: bool)
      modifies this
      ensures ok ==> entries == old(entries)[name := File(data)]
      ensures !ok ==> exists n: nat | n <= |data| :: entries == old(entries)[name := File(data[..n])]
      ensures reliable ==> ok
    {
      var sent: int := *;
      if 0 <= sent < |data| && !reliable {
        entries := entries[name := File(data[..sent])];
        return false;
      }
      entries := entries[name := File(data)];
      return true;
    }
  }

  /** Everything but `name` is as it was, and `name` is as it was or holds a start of the data. */
  ghost predicate Touched(was: map<string, Entry>, now: map<string, Entry>, name: string, data: seq<byte>) {
    was == now || exists n: nat | n <= |data| :: now == was[name := File(data[..n])]
  }

  /** An upload to the downloads directory: the name it reports, or nothing on an error. */
  method UploadToDownloads(dir: RemoteDir, name: string, data: seq<byte>) returns (stored: Option<string>)
    modifies dir
    ensures stored.Some? ==>
              && dir.entries == old(dir.entries)[stored.value := File(data)]
              && forall files: seq<string> | (forall n :: n in files <==> n in old(dir.entries)) ::
                   IsChoice(name, files, stored.value)
    ensures exists chosen :: Touched(old(dir.entries), dir.entries, chosen, data)
    ensures |old(dir.entries)| < ATTEMPTS ==>
              && (forall n | n in old(dir.entries) :: n in dir.entries && dir.entries[n] == old(dir.entries)[n])
              && (dir.reliable ==> stored.Some? && stored.value !in old(dir.entries))
  {
    assert Touched(dir.entries, dir.entries, name, data);
    var files := dir.ReadDir();
    if files.None? {
      return None;
    }
    var chosen := ChooseName(name, files.value);
    forall other: seq<string> | forall n :: n in other <==> n in dir.entries
      ensures IsChoice(name, other, chosen)
    {
      SameMembersSameChoice(name, files.value, other, chosen);
    }
    if |files.value| < ATTEMPTS {
      SmallListingIsSafe(name, files.value, chosen);
    }
    var ok := dir.Create(chosen);
    if !ok {
      return None;
    }
    assert data[..0] == [] && data[..|data|] == data;
    ok := dir.Write(chosen, data);
    assert Touched(old(dir.entries), dir.entries, chosen, data);
    return if ok then Some(chosen) else None;
  }

  lemma SameMembersSameChoice(name: string, files: seq<string>, other: seq<string>, chosen: string)
    requires IsChoice(name, files, chosen) && forall n :: n in other <==> n in files
    ensures IsChoice(name, other, chosen)
  {
    if chosen !in files {
      var i: nat :| i < ATTEMPTS && chosen == Candidate(name, i) && Taken(name, files, i);
      assert Taken(name, other, i);
    } else {
      assert Taken(name, other, ATTEMPTS);
    }
  }

  /** An upload to a directory of the user's choice. The loop assigns a variable of its own, so the
      name that is checked afterwards is still empty and every collision is refused. */
  method Upload(dir: RemoteDir, name: string, data: seq<byte>) returns (ok: bool)
    modifies dir
    ensures name in old(dir.entries) ==> !ok && dir.entries == old(dir.entries)
    ensures ok ==> name !in old(dir.entries) && dir.entries == old(dir.entries)[name := File(data)]
    ensures Touched(old(dir.entries), dir.entries, name, data)
    ensures dir.reliable ==> (ok <==> name !in old(dir.entries))
  {
    var files := dir.ReadDir();
    if files.None? {
      return false;
    }
    var fileName := name;
    var unique := IsUnique(fileName, files.value);
    if !unique {
      var unsetName := "";
      for i := 1 to ATTEMPTS
        invariant dir.entries == old(dir.entries)
      {
        var shadow := Candidate(fileName, i);
        unique := IsUnique(shadow, files.value);
        if unique {
          break;
        }
      }
      if unsetName == "" {
        return false;
      }
      fileName := unsetName;
    }
    ok := dir.Create(fileName);
    if !ok {
      return;
    }
    assert data[..0] == [] && data[..|data|] == data;
    ok := dir.Write(fileName, data);
  }
}
