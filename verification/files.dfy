/** File selection and batching: the audio-file filter, the sort by name and
    the split into fixed-size upload batches of `yoto_uploader/files.py`.
    A directory is modelled by whether it exists and by its listing, a
    sequence of entries each carrying its name and whether it is a regular file. */
module Files {
  import opened Wrappers
  import opened Text

  /** One entry of a directory listing. */
  datatype Entry = Entry(name: string, isFile: bool)

  /** Raised when the folder to scan does not exist (Python's `FileNotFoundError`). */
  datatype FilesError = FolderNotFound(folder: string)

  /** Raised by `range` when the step is zero (Python's `ValueError`). */
  datatype ChunkError = ZeroStep

  /** The allow-list of audio suffixes, compared after lower-casing. */
  const ValidExtensions: set<string> := {".mp3", ".m4a", ".wav", ".m4b"}

  // ---------------------------------------------------------------------------
  // Suffix rule
  // ---------------------------------------------------------------------------

  /** Position of the last '.' of a name, as `str.rfind('.')` finds it. */
  function LastDot(name: string): (r: Option<nat>)
    ensures r.Some? ==> r.value < |name| && name[r.value] == '.'
    ensures r.Some? ==> forall j :: r.value < j < |name| ==> name[j] != '.'
    ensures r.None? ==> forall j :: 0 <= j < |name| ==> name[j] != '.'
    decreases |name|
  {
    if |name| == 0 then None
    else if name[|name| - 1] == '.' then Some(|name| - 1)
    else LastDot(name[..|name| - 1])
  }

  /** The last dot is at or after any dot of the name. */
  lemma LastDotAfter(name: string, j: nat)
    requires j < |name| && name[j] == '.'
    ensures LastDot(name).Some? && LastDot(name).value >= j
  {
  }

  /** A dot that no other dot follows is the last dot. */
  lemma LastDotIsUnique(name: string, k: nat)
    requires k < |name| && name[k] == '.' && forall j :: k < j < |name| ==> name[j] != '.'
    ensures LastDot(name) == Some(k)
  {
    LastDotAfter(name, k);
  }

  /** The last dot lies strictly inside the name exactly when some dot strictly
      inside the name is followed by no other dot. */
  lemma InnerLastDot(name: string)
    ensures (LastDot(name).Some? && 0 < LastDot(name).value < |name| - 1) <==>
      exists i :: 0 < i < |name| - 1 && name[i] == '.' && forall j :: i < j < |name| ==> name[j] != '.'
  {
    if exists i :: 0 < i < |name| - 1 && name[i] == '.' && forall j :: i < j < |name| ==> name[j] != '.' {
      var i :| 0 < i < |name| - 1 && name[i] == '.' && forall j :: i < j < |name| ==> name[j] != '.';
      LastDotIsUnique(name, i);
    }
    if LastDot(name).Some? {
      var d := LastDot(name).value;
      assert name[d] == '.';
    }
  }

  /** A path's suffix: everything from the last '.' on, provided that dot is
      neither the first nor the last character of the name; otherwise empty. */
  function Suffix(name: string): (r: string)
    ensures r == "" || (2 <= |r| < |name| && r == name[|name| - |r|..])
    ensures r != "" ==> r[0] == '.' && forall j :: 1 <= j < |r| ==> r[j] != '.'
    ensures r != "" <==> exists i :: 0 < i < |name| - 1 && name[i] == '.' && forall j :: i < j < |name| ==> name[j] != '.'
  {
    InnerLastDot(name);
    match LastDot(name)
    case Some(i) => if 0 < i < |name| - 1 then name[i..] else ""
    case None => ""
  }

  /** An entry is kept when it is a regular file whose lower-cased suffix is allowed. */
  predicate IsAudioFile(e: Entry)
  {
    e.isFile && Lower(Suffix(e.name)) in ValidExtensions
  }

  /** The name has at least one character before a four-character ending that,
      lower-cased, is one of the allowed extensions. */
  predicate HasAudioEnding(name: string)
  {
    |name| >= 5 && Lower(name[|name| - 4..]) in ValidExtensions
  }

  /** The suffix rule restated without dots: an entry is kept exactly when it is
      a regular file whose name has an allowed ending after at least one character. */
  lemma AudioFileByEnding(e: Entry)
    ensures IsAudioFile(e) <==> e.isFile && HasAudioEnding(e.name)
  {
    var n := e.name;
    if e.isFile && HasAudioEnding(n) {
      var t := n[|n| - 4..];
      AllowedEndingDots(t);
      assert n[|n| - 4] == '.';
      SuffixOfEnding(n);
    }
  }

  /** An allowed four-character ending starts with its only dot. */
  lemma AllowedEndingDots(t: string)
    requires |t| == 4 && Lower(t) in ValidExtensions
    ensures t[0] == '.' && t[1] != '.' && t[2] != '.' && t[3] != '.'
  {
    var l := Lower(t);
    assert l == ".mp3" || l == ".m4a" || l == ".wav" || l == ".m4b";
    assert l[0] == '.' && l[1] != '.' && l[2] != '.' && l[3] != '.';
    LowerCharKeepsNonLetter(t[0], '.');
    LowerCharKeepsNonLetter(t[1], '.');
    LowerCharKeepsNonLetter(t[2], '.');
    LowerCharKeepsNonLetter(t[3], '.');
  }

  /** A name with a dot four from the end and none after it has the last four
      characters as its suffix, provided something comes before the dot. */
  lemma SuffixOfEnding(n: string)
    requires |n| >= 5 && n[|n| - 4] == '.'
    requires n[|n| - 3] != '.' && n[|n| - 2] != '.' && n[|n| - 1] != '.'
    ensures Suffix(n) == n[|n| - 4..]
  {
    LastDotAfter(n, |n| - 4);
    var d := LastDot(n).value;
    assert d == |n| - 4;
  }

  /** Lower-casing a name does not change whether it has an allowed ending. */
  lemma HasAudioEndingIgnoresCase(a: string, b: string)
    requires Lower(a) == Lower(b)
    ensures HasAudioEnding(a) <==> HasAudioEnding(b)
  {
    assert |a| == |Lower(a)| == |Lower(b)| == |b|;
    if |a| >= 5 {
      LowerSlice(a, |a| - 4, |a|);
      LowerSlice(b, |b| - 4, |b|);
      assert Lower(a[|a| - 4..]) == Lower(b[|b| - 4..]);
    }
  }

  /** Matching is case-insensitive: two regular files whose names agree after
      lower-casing are either both kept or both dropped. */
  lemma AudioFileIgnoresCase(a: Entry, b: Entry)
    requires a.isFile == b.isFile && Lower(a.name) == Lower(b.name)
    ensures IsAudioFile(a) <==> IsAudioFile(b)
  {
    AudioFileByEnding(a);
    AudioFileByEnding(b);
    HasAudioEndingIgnoresCase(a.name, b.name);
  }

  /** An upper-case ending is kept. */
  lemma UpperCaseEndingKept()
    ensures IsAudioFile(Entry("Track 01.MP3", true))
  {
    var n := "Track 01.MP3";
    assert n[|n| - 4..] == ".MP3";
    assert Lower(".MP3") == ".mp3";
    AudioFileByEnding(Entry(n, true));
  }

  /** A bare dot-file has no suffix and is dropped even with an allowed name. */
  lemma DotFileDropped()
    ensures !IsAudioFile(Entry(".mp3", true))
  {
    AudioFileByEnding(Entry(".mp3", true));
  }

  // ---------------------------------------------------------------------------
  // Filter and sort
  // ---------------------------------------------------------------------------

  /** The entries of the listing that are audio files, each kept as often as it occurs. */
  function AudioEntries(listing: seq<Entry>): (r: seq<Entry>)
    ensures forall e :: multiset(r)[e] == if IsAudioFile(e) then multiset(listing)[e] else 0
    decreases |listing|
  {
    if |listing| == 0 then []
    else
      var rest := AudioEntries(listing[1..]);
      assert listing == [listing[0]] + listing[1..];
      if IsAudioFile(listing[0]) then [listing[0]] + rest else rest
  }

  /** Ascending by name, in the code-point order Python uses for `str`. */
  predicate SortedByName(s: seq<Entry>)
  {
    forall i, j :: 0 <= i < j < |s| ==> NameLeq(s[i].name, s[j].name)
  }

  /** Inserts one entry into a list sorted by name. */
  function InsertByName(x: Entry, s: seq<Entry>): (r: seq<Entry>)
    requires SortedByName(s)
    ensures SortedByName(r)
    ensures multiset(r) == multiset(s) + multiset{x}
    decreases |s|
  {
    if |s| == 0 then [x]
    else if NameLeq(x.name, s[0].name) then
      forall j | 0 < j < |s|
        ensures NameLeq(x.name, s[j].name)
      {
        NameLeqTransitive(x.name, s[0].name, s[j].name);
      }
      PrependSorted(x, s);
      [x] + s
    else
      var rest := InsertByName(x, s[1..]);
      NameLeqTotal(x.name, s[0].name);
      forall j | 0 <= j < |rest|
        ensures NameLeq(s[0].name, rest[j].name)
      {
        assert rest[j] in multiset(rest);
        if rest[j] != x {
          assert rest[j] in multiset(s[1..]);
        }
      }
      PrependSorted(s[0], rest);
      assert s == [s[0]] + s[1..];
      [s[0]] + rest
  }

  /** An entry no greater than any element of a sorted list can go in front of it. */
  lemma PrependSorted(x: Entry, s: seq<Entry>)
    requires SortedByName(s)
    requires forall j :: 0 <= j < |s| ==> NameLeq(x.name, s[j].name)
    ensures SortedByName([x] + s)
  {
  }

  /** Sorts a list by name (insertion sort). */
  function SortByName(s: seq<Entry>): (r: seq<Entry>)
    ensures SortedByName(r)
    ensures multiset(r) == multiset(s)
    decreases |s|
  {
    if |s| == 0 then []
    else
      assert s == [s[0]] + s[1..];
      InsertByName(s[0], SortByName(s[1..]))
  }

  /** The head of a list sorted by name is no greater than any of its elements. */
  lemma HeadIsLeast(a: seq<Entry>, x: Entry)
    requires SortedByName(a) && x in a
    ensures NameLeq(a[0].name, x.name)
  {
    var i :| 0 <= i < |a| && a[i] == x;
    if i == 0 {
      NameLeqReflexive(x.name);
    }
  }

  /** Removing equal heads from two permutations of each other leaves permutations. */
  lemma TailsArePermutations(a: seq<Entry>, b: seq<Entry>)
    requires |a| > 0 && |b| > 0 && a[0] == b[0]
    requires multiset(a) == multiset(b)
    ensures multiset(a[1..]) == multiset(b[1..])
  {
    assert a == [a[0]] + a[1..];
    assert b == [b[0]] + b[1..];
    assert multiset(a[1..]) == multiset(a) - multiset{a[0]};
    assert multiset(b[1..]) == multiset(b) - multiset{b[0]};
  }

  /** Two lists of regular files that are sorted by name and hold the same
      entries are equal. Regular files with the same name are the same entry,
      so the order the source's stable sort produces is the only possible one. */
  lemma {:induction false} SortedPermutationUnique(a: seq<Entry>, b: seq<Entry>)
    requires SortedByName(a) && SortedByName(b)
    requires multiset(a) == multiset(b)
    requires forall e :: e in a ==> e.isFile
    ensures a == b
    decreases |a|
  {
    assert |a| == |multiset(a)| == |multiset(b)| == |b|;
    if |a| > 0 {
      assert a[0] in multiset(b) && b[0] in multiset(a);
      HeadIsLeast(a, b[0]);
      HeadIsLeast(b, a[0]);
      NameLeqAntisymmetric(a[0].name, b[0].name);
      assert a[0] == b[0];
      TailsArePermutations(a, b);
      assert forall e :: e in a[1..] ==> e in a;
      SortedPermutationUnique(a[1..], b[1..]);
      assert a == [a[0]] + a[1..];
      assert b == [b[0]] + b[1..];
    }
  }

  /** `get_valid_audio_files`: fails when the folder is missing; otherwise the
      regular files with an allowed suffix, sorted ascending by name. */
  function GetValidAudioFiles(folder: string, folderExists: bool, listing: seq<Entry>)
    : (r: Result<seq<Entry>, FilesError>)
    ensures !folderExists <==> r.Failure?
    ensures r.Failure? ==> r.error == FolderNotFound(folder)
    ensures r.Success? ==> SortedByName(r.value)
    ensures r.Success? ==> forall e :: multiset(r.value)[e] ==
                                       (if IsAudioFile(e) then multiset(listing)[e] else 0)
  {
    if !folderExists then Failure(FolderNotFound(folder))
    else Success(SortByName(AudioEntries(listing)))
  }

  /** Nothing dropped, nothing added: an entry is returned exactly when it is in
      the listing and qualifies. */
  lemma GetValidAudioFilesMembers(folder: string, listing: seq<Entry>)
    ensures GetValidAudioFiles(folder, true, listing).Success?
    ensures forall e :: e in GetValidAudioFiles(folder, true, listing).value <==>
      e in listing && IsAudioFile(e)
  {
    var r := GetValidAudioFiles(folder, true, listing).value;
    forall e ensures e in r <==> e in listing && IsAudioFile(e) {
      assert e in r <==> multiset(r)[e] > 0;
      assert e in listing <==> multiset(listing)[e] > 0;
    }
  }

  /** A folder holding only audio files gives all of them back. */
  lemma AllAudioKept(folder: string, listing: seq<Entry>)
    requires forall k :: 0 <= k < |listing| ==> IsAudioFile(listing[k])
    ensures multiset(GetValidAudioFiles(folder, true, listing).value) == multiset(listing)
    ensures |GetValidAudioFiles(folder, true, listing).value| == |listing|
  {
    KeptAll(GetValidAudioFiles(folder, true, listing).value, listing, IsAudioFile);
  }

  /** A filter that keeps every element keeps the whole multiset. */
  lemma KeptAll<T>(r: seq<T>, s: seq<T>, keep: T -> bool)
    requires forall e :: multiset(r)[e] == if keep(e) then multiset(s)[e] else 0
    requires forall k :: 0 <= k < |s| ==> keep(s[k])
    ensures multiset(r) == multiset(s) && |r| == |s|
  {
    forall e ensures multiset(r)[e] == multiset(s)[e] {
      if e in s {
        var k :| 0 <= k < |s| && s[k] == e;
      }
    }
    assert multiset(r) == multiset(s);
    assert |r| == |multiset(r)|;
  }

  /** The result is the only arrangement of the qualifying entries that is
      sorted by name, so any sort keyed on the name gives the same list. */
  lemma GetValidAudioFilesUnique(folder: string, listing: seq<Entry>, other: seq<Entry>)
    requires SortedByName(other)
    requires forall e :: multiset(other)[e] == if IsAudioFile(e) then multiset(listing)[e] else 0
    ensures GetValidAudioFiles(folder, true, listing) == Success(other)
  {
    var r := GetValidAudioFiles(folder, true, listing).value;
    assert multiset(r) == multiset(other);
    forall e | e in r ensures e.isFile {
      assert multiset(r)[e] > 0;
    }
    SortedPermutationUnique(r, other);
  }

  /** An element at two positions occurs at least twice. */
  lemma CountTwo<T>(s: seq<T>, i: nat, j: nat)
    requires i < j < |s| && s[i] == s[j]
    ensures multiset(s)[s[i]] >= 2
  {
    assert s == s[..j] + s[j..];
    assert s[i] in s[..j];
    assert s[j] in s[j..];
  }

  /** An element that occurs at least twice sits at two positions. */
  lemma {:induction false} TwoPositions<T>(s: seq<T>, x: T)
    requires multiset(s)[x] >= 2
    ensures exists i, j :: 0 <= i < j < |s| && s[i] == x && s[j] == x
    decreases |s|
  {
    assert s == [s[0]] + s[1..];
    if s[0] == x {
      assert x in multiset(s[1..]);
      var j :| 0 <= j < |s[1..]| && s[1..][j] == x;
      assert s[j + 1] == x;
    } else {
      TwoPositions(s[1..], x);
      var i, j :| 0 <= i < j < |s[1..]| && s[1..][i] == x && s[1..][j] == x;
      assert s[i + 1] == x && s[j + 1] == x;
    }
  }

  /** The names of a directory listing are distinct, so the result has no
      duplicates: its names strictly ascend. */
  lemma DistinctNamesStrictlyAscend(folder: string, listing: seq<Entry>)
    requires forall i, j :: 0 <= i < j < |listing| ==> listing[i].name != listing[j].name
    ensures var r := GetValidAudioFiles(folder, true, listing).value;
      forall i, j :: 0 <= i < j < |r| ==> NameLeq(r[i].name, r[j].name) && r[i].name != r[j].name
  {
    var r := GetValidAudioFiles(folder, true, listing).value;
    forall i, j | 0 <= i < j < |r| ensures r[i].name != r[j].name {
      if r[i].name == r[j].name {
        assert multiset(r)[r[i]] > 0 && multiset(r)[r[j]] > 0;
        assert r[i] == r[j];
        CountTwo(r, i, j);
        TwoPositions(listing, r[i]);
      }
    }
  }

  // ---------------------------------------------------------------------------
  // Chunking
  // ---------------------------------------------------------------------------

  /** Concatenation of a list of chunks. */
  function Concat<T>(chunks: seq<seq<T>>): seq<T>
    decreases |chunks|
  {
    if |chunks| == 0 then [] else chunks[0] + Concat(chunks[1..])
  }

  /** ceil(n / size) for a positive size. */
  function CeilDiv(n: nat, size: nat): nat
    requires size >= 1
  {
    (n + size - 1) / size
  }

  /** The smaller of two integers: the end of a slice cut at the end of the list. */
  function Min(a: int, b: int): int
  {
    if a <= b then a else b
  }

  /** Consecutive slices of `size` elements; the last one may be shorter. */
  function Chunks<T>(data: seq<T>, size: nat): (r: seq<seq<T>>)
    requires size >= 1
    ensures forall k :: 0 <= k < |r| ==> 1 <= |r[k]| <= size
    ensures forall k :: 0 <= k < |r| - 1 ==> |r[k]| == size
    decreases |data|
  {
    if |data| == 0 then []
    else if |data| <= size then [data]
    else [data[..size]] + Chunks(data[size..], size)
  }

  /** The chunks concatenate back to the input: no gaps, overlaps or reordering. */
  lemma {:induction false} ChunksConcat<T>(data: seq<T>, size: nat)
    requires size >= 1
    ensures Concat(Chunks(data, size)) == data
    decreases |data|
  {
    if |data| == 0 {
    } else if |data| <= size {
      assert Concat([data]) == data + Concat([]);
    } else {
      var rest := Chunks(data[size..], size);
      ChunksConcat(data[size..], size);
      assert Chunks(data, size)[1..] == rest;
      assert data == data[..size] + data[size..];
    }
  }

  /** One step of the chunk recursion: a list longer than one chunk starts with
      a full chunk, followed by the chunks of the remainder. */
  lemma ChunksUnfold<T>(data: seq<T>, size: nat)
    requires 1 <= size < |data|
    ensures Chunks(data, size) == [data[..size]] + Chunks(data[size..], size)
  {
  }

  /** A non-zero multiple of a positive size is at least that size away from zero. */
  lemma MulSign(c: int, size: int)
    requires size >= 1
    ensures c >= 1 ==> c * size >= size
    ensures c <= -1 ==> c * size <= -size
  {
  }

  /** One more chunk moves the start by one size. */
  lemma MulStep(k: int, size: int)
    ensures (k - 1) * size + size == k * size
  {
  }

  /** Euclidean division is determined by quotient and remainder. */
  lemma DivUnique(a: int, b: int, m: int, size: int)
    requires size >= 1 && 0 <= m < size && a == b * size + m
    ensures a / size == b
  {
    var c := a / size - b;
    assert c * size == m - a % size;
    MulSign(c, size);
  }

  /** Adding one size adds one to the quotient. */
  lemma DivStep(x: int, size: int)
    requires x >= 0 && size >= 1
    ensures (x + size) / size == x / size + 1
  {
    DivUnique(x + size, x / size + 1, x % size, size);
  }

  /** The quotient below one size is 0, and below two sizes is 1. */
  lemma DivSmall(x: int, size: int)
    requires 0 <= x && size >= 1
    ensures x < size ==> x / size == 0
    ensures size <= x < 2 * size ==> x / size == 1
  {
  }

  /** An empty list yields no chunks; otherwise there are ceil(|data| / size) of them. */
  lemma {:induction false} ChunkCount<T>(data: seq<T>, size: nat)
    requires size >= 1
    ensures |Chunks(data, size)| == CeilDiv(|data|, size)
    decreases |data|
  {
    DivSmall(|data| + size - 1, size);
    if |data| > size {
      ChunksUnfold(data, size);
      ChunkCount(data[size..], size);
      DivStep(|data| - size + size - 1, size);
    }
  }

  /** Chunk `k` is the slice `data[k*size : k*size + size]`, cut at the end of the
      list: the slices Python's `range(0, len(data), size)` loop yields. */
  lemma {:induction false} ChunkAt<T>(data: seq<T>, size: nat, k: nat)
    requires size >= 1 && k < |Chunks(data, size)|
    ensures k * size < |data|
    ensures Chunks(data, size)[k] == data[k * size .. Min(k * size + size, |data|)]
    decreases k
  {
    if k > 0 {
      ChunksShort(data, size);
      ChunksUnfold(data, size);
      var tail := data[size..];
      assert Chunks(data, size)[k] == Chunks(tail, size)[k - 1];
      ChunkAt(tail, size, k - 1);
      var p := (k - 1) * size;
      MulStep(k, size);
      var q := Min(p + size, |tail|);
      ShiftedSlice(data, size, p, q);
    }
  }

  /** A list of at most one chunk's length yields at most one chunk. */
  lemma ChunksShort<T>(data: seq<T>, size: nat)
    requires size >= 1
    ensures |data| <= size ==> |Chunks(data, size)| <= 1
  {
  }

  /** A slice of the remainder after the first chunk is the slice shifted by one size. */
  lemma ShiftedSlice<T>(data: seq<T>, size: nat, p: nat, q: nat)
    requires size <= |data| && p <= q <= |data| - size
    ensures data[size..][p..q] == data[p + size..q + size]
  {
  }

  /** `chunk_list` materialised: a zero size makes `range` raise, a negative size
      yields nothing, and a positive size yields consecutive slices that
      concatenate back to the input, all full except a non-empty last one, and
      ceil(|data| / size) of them. */
  function ChunkList<T>(data: seq<T>, size: int): (r: Result<seq<seq<T>>, ChunkError>)
    ensures size == 0 <==> r.Failure?
    ensures size < 0 ==> r == Success([])
    ensures size >= 1 ==> r.Success? && Concat(r.value) == data
    ensures size >= 1 ==> r.Success? && |r.value| == CeilDiv(|data|, size)
    ensures size >= 1 ==> r.Success? && forall k :: 0 <= k < |r.value| ==> 1 <= |r.value[k]| <= size
    ensures size >= 1 ==> r.Success? && forall k :: 0 <= k < |r.value| - 1 ==> |r.value[k]| == size
  {
    if size == 0 then Failure(ZeroStep)
    else if size < 0 then Success([])
    else
      ChunkCount(data, size);
      ChunksConcat(data, size);
      Success(Chunks(data, size))
  }

  /** The generator loop itself: start at index 0, yield the slice of `size`
      elements cut at the end of the list, and step by `size`. */
  method ChunkSlices<T>(data: seq<T>, size: int) returns (r: Result<seq<seq<T>>, ChunkError>)
    ensures r == ChunkList(data, size)
  {
    if size == 0 {
      return Failure(ZeroStep);
    }
    if size < 0 {
      return Success([]);
    }
    var chunks: seq<seq<T>> := [];
    var i := 0;
    assert data[Min(i, |data|)..] == data;
    while i < |data|
      invariant 0 <= i
      invariant chunks + Chunks(data[Min(i, |data|)..], size) == Chunks(data, size)
      decreases |data| - i
    {
      var j := Min(i + size, |data|);
      ChunkSliceStep(data, size, i);
      chunks := chunks + [data[i..j]];
      i := i + size;
    }
    assert data[Min(i, |data|)..] == [];
    assert Chunks(data[Min(i, |data|)..], size) == [];
    assert chunks == Chunks(data, size);
    PositiveChunkList(data, size);
    return Success(chunks);
  }

  /** A positive size always succeeds, with the chunks of the recursion. */
  lemma PositiveChunkList<T>(data: seq<T>, size: nat)
    requires size >= 1
    ensures ChunkList(data, size) == Success(Chunks(data, size))
  {
  }

  /** One turn of the generator loop: the slice at `i` is the first chunk of
      what is left, and the loop goes on from `i + size`. */
  lemma ChunkSliceStep<T>(data: seq<T>, size: nat, i: nat)
    requires size >= 1 && i < |data|
    ensures [data[i..Min(i + size, |data|)]] + Chunks(data[Min(i + size, |data|)..], size)
         == Chunks(data[i..], size)
  {
    var rest := data[i..];
    if |rest| > size {
      ChunksUnfold(rest, size);
      assert rest[..size] == data[i..i + size];
      assert rest[size..] == data[i + size..];
    } else {
      assert rest == data[i..|data|];
      assert data[|data|..] == [];
    }
  }

  /** Seven files in batches of three are uploaded as batches of 3, 3 and 1. */
  lemma SevenInThrees<T>(data: seq<T>)
    requires |data| == 7
    ensures Chunks(data, 3) == [data[..3], data[3..6], data[6..]]
    ensures |data[..3]| == 3 && |data[3..6]| == 3 && |data[6..]| == 1
  {
    ChunksUnfold(data, 3);
    ChunksUnfold(data[3..], 3);
    assert data[3..][..3] == data[3..6];
    assert data[3..][3..] == data[6..];
  }
}
