/**
 * The map of files by address (apx/src/file_map.c): a list kept in address order, automatic
 * addresses, and a cache of the file found last.
 */
module FileMaps {
  import opened Common
  import opened Headers

  const REMOTE_ADDRESS_BIT := 0x8000_0000
  const ADDRESS_SPACE := 0x8000_0000

  /** An address without the remote address bit. */
  function Place(address: uint32): (r: uint32)
    ensures r < ADDRESS_SPACE
  {
    address % ADDRESS_SPACE
  }

  /** The kinds of files, by the extension of their names. */
  datatype FileType =
    | Definition | ProvidePortData | RequirePortData | ProvidePortCount | RequirePortCount | OtherFile

  type FileName = seq<int>

  datatype File = File(name: FileName, fileType: FileType, address: uint32, size: uint32) {
    function Start(): (r: uint32)
      ensures r < ADDRESS_SPACE
    {
      Place(address)
    }

    /** The first address behind the file, in 32-bit arithmetic. */
    function End(): uint32 { (Start() + size) % U32_MOD }

    predicate InRange(a: nat) { Start() <= a < End() }
  }

  // ---------- what the list is for ----------

  /** In address order, ranges apart. */
  ghost predicate Ordered(files: seq<File>) {
    forall i, j :: 0 <= i < j < |files| ==> files[i].Start() <= files[j].Start() && files[i].End() <= files[j].Start()
  }

  /** Files end inside the address space. */
  ghost predicate Inside(files: seq<File>) {
    forall i :: 0 <= i < |files| ==> files[i].Start() + files[i].size <= ADDRESS_SPACE
  }

  /** The first file whose range holds the address. */
  function Find(files: seq<File>, a: nat): Option<File> {
    if |files| == 0 then None else if files[0].InRange(a) then Some(files[0]) else Find(files[1..], a)
  }

  /** It is the only one. */
  lemma {:induction false} FindOnly(files: seq<File>, a: nat, f: File)
    requires Ordered(files) && f in files && f.InRange(a)
    ensures Find(files, a) == Some(f)
  {
    if f != files[0] {
      FirstApart(files, f);
      FindOnly(files[1..], a, f);
    }
  }

  lemma FirstApart(files: seq<File>, f: File)
    requires Ordered(files) && f in files && f != files[0]
    ensures files[0].End() <= f.Start() && f in files[1..]
  {
    var j :| 0 <= j < |files| && files[j] == f;
    assert files[1..][j - 1] == f;
  }

  lemma {:induction false} FindNone(files: seq<File>, a: nat)
    ensures Find(files, a).None? <==> forall f :: f in files ==> !f.InRange(a)
    ensures Find(files, a).Some? ==> Find(files, a).value in files && Find(files, a).value.InRange(a)
  {
    if |files| > 0 {
      FindNone(files[1..], a);
      assert files == [files[0]] + files[1..];
    }
  }

  function FindName(files: seq<File>, name: FileName): Option<File> {
    if |files| == 0 then None else if files[0].name == name then Some(files[0]) else FindName(files[1..], name)
  }

  lemma {:induction false} FindNameFacts(files: seq<File>, name: FileName)
    ensures FindName(files, name).None? <==> forall f :: f in files ==> f.name != name
    ensures FindName(files, name).Some? ==> FindName(files, name).value in files && FindName(files, name).value.name == name
  {
    if |files| > 0 {
      FindNameFacts(files[1..], name);
      assert files == [files[0]] + files[1..];
    }
  }

  // ---------- automatic addresses ----------

  function StartAddress(t: FileType): uint32 {
    match t
    case Definition => 0x400_0000
    case ProvidePortData | RequirePortData => 0
    case ProvidePortCount | RequirePortCount => 0x800_0000
    case OtherFile => 0x2000_0000
  }

  function Alignment(t: FileType): (r: uint32)
    ensures r > 0
  {
    match t
    case Definition => 0x4_0000
    case ProvidePortData | RequirePortData => 0x400
    case ProvidePortCount | RequirePortCount => 0x400
    case OtherFile => 0x1000
  }

  /** `n & (alignment - 1)`: alignments are powers of two. */
  function LowBits(n: nat, t: FileType): nat {
    match t
    case Definition => n % 0x4_0000
    case ProvidePortData | RequirePortData => n % 0x400
    case ProvidePortCount | RequirePortCount => n % 0x400
    case OtherFile => n % 0x1000
  }

  /** `(end + (alignment - 1)) & ~(alignment - 1)` in 32-bit arithmetic */
  function AlignedUp(end: uint32, t: FileType): uint32 {
    var sum := (end + (Alignment(t) - 1)) % U32_MOD;
    sum - LowBits(sum, t)
  }

  /** The least aligned address at or behind `end`, unless it would not fit 32 bits. */
  lemma AlignedUpLeast(end: uint32, t: FileType)
    requires end + Alignment(t) - 1 < U32_MOD
    ensures LowBits(AlignedUp(end, t), t) == 0 && end <= AlignedUp(end, t) < end + Alignment(t)
    ensures forall a: nat :: LowBits(a, t) == 0 && a >= end ==> AlignedUp(end, t) <= a
  {
    hide AlignedUp, LowBits;
    forall a: nat
      ensures LowBits(AlignedUp(end, t), t) == 0 && end <= AlignedUp(end, t) < end + Alignment(t)
      ensures LowBits(a, t) == 0 && a >= end ==> AlignedUp(end, t) <= a
    {
      AlignedUpTo(end, t, a);
    }
  }

  lemma AlignedUpTo(end: uint32, t: FileType, a: nat)
    requires end + Alignment(t) - 1 < U32_MOD
    ensures LowBits(AlignedUp(end, t), t) == 0 && end <= AlignedUp(end, t) < end + Alignment(t)
    ensures LowBits(a, t) == 0 && a >= end ==> AlignedUp(end, t) <= a
  {
    AlignedUpIs(end, t);
    hide AlignedUp;
    match t
    case Definition => BlocksApart(end, a);
    case ProvidePortData => KilobytesApart(end, a);
    case RequirePortData => KilobytesApart(end, a);
    case ProvidePortCount => KilobytesApart(end, a);
    case RequirePortCount => KilobytesApart(end, a);
    case OtherFile => PagesApart(end, a);
  }

  lemma AlignedUpIs(end: uint32, t: FileType)
    requires end + Alignment(t) - 1 < U32_MOD
    ensures AlignedUp(end, t) == (end + (Alignment(t) - 1)) - LowBits(end + (Alignment(t) - 1), t)
  {
    hide LowBits;
    SmallMod(end + (Alignment(t) - 1));
  }

  lemma KilobytesApart(end: nat, a: nat)
    ensures var x := (end + 0x3FF) - (end + 0x3FF) % 0x400; x % 0x400 == 0 && end <= x < end + 0x400 && (a % 0x400 == 0 && a >= end ==> x <= a)
  {
  }

  lemma PagesApart(end: nat, a: nat)
    ensures var x := (end + 0xFFF) - (end + 0xFFF) % 0x1000; x % 0x1000 == 0 && end <= x < end + 0x1000 && (a % 0x1000 == 0 && a >= end ==> x <= a)
  {
  }

  lemma BlocksApart(end: nat, a: nat)
    ensures var x := (end + 0x3_FFFF) - (end + 0x3_FFFF) % 0x4_0000; x % 0x4_0000 == 0 && end <= x < end + 0x4_0000 && (a % 0x4_0000 == 0 && a >= end ==> x <= a)
  {
  }

  // ---------- creating a file ----------

  /** The last file of the first run of files of one type (find_last_element_of_type). */
  function LastOfType(files: seq<File>, t: FileType): Option<nat> {
    var first := FirstOf(files, 0, t);
    if first == |files| then None else Some(RunEnd(files, first, t))
  }

  function FirstOf(files: seq<File>, i: nat, t: FileType): (r: nat)
    requires i <= |files|
    ensures i <= r <= |files| && (r < |files| ==> files[r].fileType == t)
    decreases |files| - i
  {
    if i == |files| || files[i].fileType == t then i else FirstOf(files, i + 1, t)
  }

  function RunEnd(files: seq<File>, i: nat, t: FileType): (r: nat)
    requires i < |files|
    ensures i <= r < |files|
    decreases |files| - i
  {
    if i + 1 < |files| && files[i + 1].fileType == t then RunEnd(files, i + 1, t) else i
  }

  /** The first run of files of one type goes from `i` to `k`. */
  ghost predicate FirstRun(files: seq<File>, t: FileType, i: nat, k: nat) {
    && i <= k < |files|
    && (forall j :: 0 <= j < i ==> files[j].fileType != t)
    && (forall j :: i <= j <= k ==> files[j].fileType == t)
    && (k + 1 < |files| ==> files[k + 1].fileType != t)
  }

  /** The file found is the last one of the first run, and there is one exactly if some file has the type. */
  lemma LastOfTypeExact(files: seq<File>, t: FileType)
    ensures LastOfType(files, t).None? <==> forall f :: f in files ==> f.fileType != t
    ensures forall k: nat :: LastOfType(files, t) == Some(k) <==> exists i: nat :: FirstRun(files, t, i, k)
  {
    var first := FirstOf(files, 0, t);
    FirstOfExact(files, 0, t);
    if first < |files| {
      var k := RunEnd(files, first, t);
      RunEndExact(files, first, t);
      assert FirstRun(files, t, first, k);
      forall i: nat, k2: nat | FirstRun(files, t, i, k2) ensures k2 == k {
        RunsEqual(files, t, first, k, i, k2);
      }
    } else {
      forall i: nat, k: nat ensures !FirstRun(files, t, i, k) {
        NoRun(files, t, i, k);
      }
    }
  }

  lemma {:induction false} FirstOfExact(files: seq<File>, i: nat, t: FileType)
    requires i <= |files|
    ensures forall j :: i <= j < FirstOf(files, i, t) ==> files[j].fileType != t
    decreases |files| - i
  {
    if i < |files| && files[i].fileType != t {
      FirstOfExact(files, i + 1, t);
    }
  }

  lemma {:induction false} RunEndExact(files: seq<File>, i: nat, t: FileType)
    requires i < |files| && files[i].fileType == t
    ensures var k := RunEnd(files, i, t);
            && (forall j :: i <= j <= k ==> files[j].fileType == t)
            && (k + 1 < |files| ==> files[k + 1].fileType != t)
    decreases |files| - i
  {
    if i + 1 < |files| && files[i + 1].fileType == t {
      RunEndExact(files, i + 1, t);
    }
  }

  lemma NoRun(files: seq<File>, t: FileType, i: nat, k: nat)
    requires forall j :: 0 <= j < |files| ==> files[j].fileType != t
    ensures !FirstRun(files, t, i, k)
  {
    if i < |files| {
      assert files[i].fileType != t;
    }
  }

  lemma RunsEqual(files: seq<File>, t: FileType, i: nat, k: nat, i2: nat, k2: nat)
    requires FirstRun(files, t, i, k) && FirstRun(files, t, i2, k2)
    ensures i == i2 && k == k2
  {
    assert files[i].fileType == t && files[i2].fileType == t;
    assert files[k].fileType == t && files[k2].fileType == t;
  }

  /** How many files begin before an address (find_next_available_position). */
  function CountBefore(files: seq<File>, i: nat, a: nat): (r: nat)
    requires i <= |files|
    ensures i <= r <= |files|
    ensures forall k :: i <= k < r ==> files[k].Start() < a
    ensures r < |files| ==> files[r].Start() >= a
    decreases |files| - i
  {
    if i < |files| && files[i].Start() < a then CountBefore(files, i + 1, a) else i
  }

  /** The address and the position that create_file settles on. */
  function Settled(files: seq<File>, info: File): (r: (uint32, nat))
    ensures r.1 <= |files|
  {
    if info.Start() != INVALID_ADDRESS then (info.address, CountBefore(files, 0, info.Start()))
    else match LastOfType(files, info.fileType)
      case Some(left) => (AlignedUp(files[left].End(), info.fileType), left + 1)
      case None => (StartAddress(info.fileType), CountBefore(files, 0, StartAddress(info.fileType)))
  }

  function Flagged(address: uint32, remote: bool): uint32 {
    if remote && address < REMOTE_ADDRESS_BIT then address + REMOTE_ADDRESS_BIT else address
  }

  datatype Outcome =
    | Created(files: seq<File>, file: File)
    | Overlap          // NULL: the file does not fit in front of its right neighbour
    | LeftNeighbour    // an assertion of the source: the left neighbour reaches into the file

  function Insert(files: seq<File>, f: File, k: nat): Outcome
    requires k <= |files|
  {
    if k > 0 && files[k - 1].End() > f.Start() then LeftNeighbour
    else if k < |files| && (f.End() > files[k].Start() || f.End() > CMD_AREA_START) then Overlap
    else Created(files[..k] + [f] + files[k..], f)
  }

  /** apx_fileMap_create_file */
  function Create(files: seq<File>, remote: bool, info: File): Outcome {
    var (address, k) := Settled(files, info);
    Insert(files, info.(address := Flagged(address, remote)), k)
  }

  /** An automatic address that continues a run of its type, where `Settled` does not search by address. */
  predicate BehindRun(files: seq<File>, info: File) {
    info.Start() == INVALID_ADDRESS && exists f :: f in files && f.fileType == info.fileType
  }

  /** The address of a file that does not continue a run: its own, or the start of its type. */
  function WantedAddress(info: File): uint32 {
    if info.Start() != INVALID_ADDRESS then info.Start() else StartAddress(info.fileType)
  }

  lemma RunFound(files: seq<File>, info: File)
    ensures BehindRun(files, info) <==> info.Start() == INVALID_ADDRESS && LastOfType(files, info.fileType).Some?
  {
    hide File.Start, LastOfType;
    LastOfTypeExact(files, info.fileType);
  }

  /** The first address behind a file of this size, in 32-bit arithmetic. */
  function EndFrom(start: uint32, size: uint32): uint32 { (start + size) % U32_MOD }

  /** The address at which a file is to begin. */
  function StartOf(files: seq<File>, info: File): uint32 {
    Place(Settled(files, info).0)
  }

  /** Files inside the address space end where they seem to. */
  lemma EndExact(f: File)
    requires f.Start() + f.size <= ADDRESS_SPACE
    ensures f.End() == f.Start() + f.size
  {
    hide Place;
  }

  lemma StartIs(f: File)
    ensures f.Start() == Place(f.address) && f.End() == EndFrom(f.Start(), f.size)
  {
    hide Place;
  }

  lemma PlaceSame(address: uint32)
    requires address < ADDRESS_SPACE
    ensures Place(address) == address
  {
  }

  lemma FlaggedStart(address: uint32, remote: bool)
    ensures Place(Flagged(address, remote)) == Place(address)
  {
  }

  lemma FileAt(info: File, address: uint32, remote: bool)
    ensures var f := info.(address := Flagged(address, remote)); f.Start() == Place(address) && f.End() == EndFrom(Place(address), info.size)
  {
    hide Place, Flagged;
    FlaggedStart(address, remote);
    StartIs(info.(address := Flagged(address, remote)));
  }

  // ---------- when a file is created ----------

  /** A file that begins before `a` ends behind it. */
  ghost predicate Reached(files: seq<File>, a: nat) {
    exists f :: f in files && f.Start() < a < f.End()
  }

  /** A file at or behind `a` leaves no room up to `end`; none does if `end` lies in the command area. */
  ghost predicate InTheWay(files: seq<File>, a: nat, end: nat) {
    exists f :: f in files && f.Start() >= a && (f.Start() < end || CMD_AREA_START < end)
  }

  /**
   * Files with an address of their own, and the first files of their types: exactly when they
   * are created, and what happens to the others.
   */
  lemma PlacedByAddress(files: seq<File>, remote: bool, info: File)
    requires Ordered(files) && !BehindRun(files, info)
    ensures var a, end := WantedAddress(info), EndFrom(WantedAddress(info), info.size);
            && (Create(files, remote, info).LeftNeighbour? <==> Reached(files, a))
            && (Create(files, remote, info).Overlap? <==> !Reached(files, a) && InTheWay(files, a, end))
            && (Create(files, remote, info).Created? <==> !Reached(files, a) && !InTheWay(files, a, end))
  {
    var (address, k) := Settled(files, info);
    FileAt(info, address, remote);
    SettledByAddress(files, info);
    hide Settled, BehindRun, Flagged, File.Start, File.End, Place, EndFrom, WantedAddress;
    var a, end := StartOf(files, info), EndFrom(StartOf(files, info), info.size);
    ReachedLeft(files, a, k);
    WayRight(files, a, end, k);
  }

  /** What searching by address comes to: everything to the left begins before, everything to the right does not. */
  lemma SettledByAddress(files: seq<File>, info: File)
    requires Ordered(files) && !BehindRun(files, info)
    ensures var (address, k) := Settled(files, info);
            && (forall i :: 0 <= i < k ==> files[i].Start() < Place(address))
            && (forall i :: k <= i < |files| ==> Place(address) <= files[i].Start())
    ensures StartOf(files, info) == WantedAddress(info)
  {
    RunFound(files, info);
    StartIs(info);
    PlaceSame(StartAddress(info.fileType));
    hide Place, File.End, File.Start, FirstOf, RunEnd, CountBefore, LastOfType, EndFrom, BehindRun;
    var k := Settled(files, info).1;
    assert forall i :: k < i < |files| ==> files[k].Start() <= files[i].Start();
  }

  /** Of the files to the left only the neighbour can reach into an address. */
  lemma ReachedLeft(files: seq<File>, a: nat, k: nat)
    requires Ordered(files) && k <= |files|
    requires forall i :: 0 <= i < k ==> files[i].Start() < a
    requires forall i :: k <= i < |files| ==> a <= files[i].Start()
    ensures Reached(files, a) <==> k > 0 && files[k - 1].End() > a
  {
    hide File.Start, File.End;
    assert forall i :: 0 <= i < k - 1 ==> files[i].End() <= files[k - 1].Start();
    if Reached(files, a) {
      var f :| f in files && f.Start() < a < f.End();
      var i :| 0 <= i < |files| && files[i] == f;
    }
  }

  /** Of the files to the right the neighbour is the first in the way. */
  lemma WayRight(files: seq<File>, a: nat, end: nat, k: nat)
    requires Ordered(files) && k <= |files|
    requires forall i :: 0 <= i < k ==> files[i].Start() < a
    requires forall i :: k <= i < |files| ==> a <= files[i].Start()
    ensures InTheWay(files, a, end) <==> k < |files| && (end > files[k].Start() || end > CMD_AREA_START)
  {
    hide File.Start, File.End;
    if InTheWay(files, a, end) {
      var f :| f in files && f.Start() >= a && (f.Start() < end || CMD_AREA_START < end);
      var i :| 0 <= i < |files| && files[i] == f;
      assert i > k ==> files[k].Start() <= files[i].Start();
    }
  }

  /** The least aligned address that is not smaller than the end of any file of the run from `i` to `k`. */
  ghost predicate LeastBehind(files: seq<File>, t: FileType, i: nat, k: nat, address: nat)
    requires FirstRun(files, t, i, k)
  {
    && LowBits(address, t) == 0 && (forall j :: i <= j <= k ==> files[j].End() <= address)
    && forall a: nat :: LowBits(a, t) == 0 && (forall j :: i <= j <= k ==> files[j].End() <= a) ==> address <= a
  }

  /** What aligning the end of a run comes to inside the address space. */
  lemma RunAddress(files: seq<File>, info: File, i: nat, k: nat)
    requires Ordered(files) && Inside(files) && info.Start() == INVALID_ADDRESS && FirstRun(files, info.fileType, i, k)
    ensures BehindRun(files, info) && LastOfType(files, info.fileType) == Some(k)
    ensures var address := Settled(files, info).0;
            && Settled(files, info).1 == k + 1 && LeastBehind(files, info.fileType, i, k, address) && address <= ADDRESS_SPACE
            && (if address == ADDRESS_SPACE then 0 == StartOf(files, info) < files[k].End() else StartOf(files, info) == address)
    ensures files[k].Start() <= files[k].End()
  {
    LastOfTypeExact(files, info.fileType);
    assert FirstRun(files, info.fileType, i, k);
    assert files[k] in files && files[k].fileType == info.fileType;
    EndExact(files[k]);
    AlignedUpLeast(files[k].End(), info.fileType);
    SpaceAligned(info.fileType);
    if Settled(files, info).0 < ADDRESS_SPACE {
      PlaceSame(Settled(files, info).0);
    }
    assert Place(ADDRESS_SPACE) == 0;
    hide Place, AlignedUp, LowBits, File.End, File.Start, FirstOf, RunEnd, CountBefore, LastOfType, EndFrom;
    assert forall j :: i <= j < k ==> files[j].End() <= files[k].Start();
  }

  lemma SpaceAligned(t: FileType)
    ensures LowBits(ADDRESS_SPACE, t) == 0 && Alignment(t) < ADDRESS_SPACE
  {
  }

  /**
   * Files that continue a run: exactly when they are created. There is no neighbour to the
   * left to reach into them, except at the very end of the address space.
   */
  lemma PlacedBehindRun(files: seq<File>, remote: bool, info: File, i: nat, k: nat) returns (address: nat)
    requires Ordered(files) && Inside(files) && info.Start() == INVALID_ADDRESS && FirstRun(files, info.fileType, i, k)
    ensures LeastBehind(files, info.fileType, i, k, address) && address <= ADDRESS_SPACE
    ensures Create(files, remote, info).LeftNeighbour? <==> address == ADDRESS_SPACE
    ensures var end := EndFrom(address, info.size);
            Create(files, remote, info).Created? <==>
              address < ADDRESS_SPACE && forall j :: k < j < |files| ==> end <= files[j].Start() && end <= CMD_AREA_START
    ensures Create(files, remote, info).Created? ==> Create(files, remote, info).file.Start() == address
  {
    address := Settled(files, info).0;
    RunAddress(files, info, i, k);
    FileAt(info, address, remote);
    hide Place, AlignedUp, LowBits, File.End, File.Start, FirstOf, RunEnd, CountBefore, LastOfType, EndFrom, Flagged, LeastBehind, BehindRun;
    assert forall j :: k + 1 < j < |files| ==> files[k + 1].Start() <= files[j].Start();
  }

  // ---------- what creating a file keeps ----------

  /** The file stands between its neighbours. */
  predicate InPlace(files: seq<File>, start: nat, k: nat)
    requires k <= |files|
  {
    (k > 0 ==> files[k - 1].Start() <= start) && (k < |files| ==> start <= files[k].Start())
  }

  /**
   * The list stays in order exactly if the new file stands between its neighbours. It does if
   * the position was searched by address; behind a run it does unless 32-bit sums wrap.
   */
  lemma CreateKeepsOrder(files: seq<File>, remote: bool, info: File)
    requires Ordered(files) && Create(files, remote, info).Created?
    ensures var r, k := Create(files, remote, info), Settled(files, info).1;
            && (Ordered(r.files) <==> InPlace(files, r.file.Start(), k))
            && r.files == files[..k] + [r.file] + files[k..]
            && multiset(r.files) == multiset(files) + multiset{r.file}
            && (Inside(files) ==> (Inside(r.files) <==> r.file.Start() + r.file.size <= ADDRESS_SPACE))
    ensures !BehindRun(files, info) ==> InPlace(files, StartOf(files, info), Settled(files, info).1)
    ensures BehindRun(files, info) && Inside(files) && Settled(files, info).0 + info.size < U32_MOD ==>
      InPlace(files, StartOf(files, info), Settled(files, info).1)
    ensures Create(files, remote, info).file.Start() == StartOf(files, info)
  {
    var (address, k) := Settled(files, info);
    var f := info.(address := Flagged(address, remote));
    FileAt(info, address, remote);
    hide Settled, LastOfType, Flagged, File.Start, File.End, Place, AlignedUp, Alignment, StartAddress, EndFrom, BehindRun, InPlace, Ordered, WantedAddress;
    InsertedOrder(files, f, k);
    assert files == files[..k] + files[k..];
    if Inside(files) {
      InsertedInside(files, f, k);
    }
    if BehindRun(files, info) {
      if Inside(files) && address + info.size < U32_MOD {
        RunInPlace(files, remote, info);
      }
    } else {
      AddressInPlace(files, info);
    }
  }

  lemma AddressInPlace(files: seq<File>, info: File)
    requires Ordered(files) && !BehindRun(files, info)
    ensures InPlace(files, StartOf(files, info), Settled(files, info).1)
  {
    hide Settled, File.Start, File.End, BehindRun;
    SettledByAddress(files, info);
  }

  lemma RunInPlace(files: seq<File>, remote: bool, info: File)
    requires Ordered(files) && Inside(files) && BehindRun(files, info) && Create(files, remote, info).Created?
    requires Settled(files, info).0 + info.size < U32_MOD
    ensures InPlace(files, StartOf(files, info), Settled(files, info).1)
  {
    var address := Settled(files, info).0;
    var i, k := TheRun(files, info);
    RunAddress(files, info, i, k);
    FileAt(info, address, remote);
    hide Place, AlignedUp, LowBits, File.End, File.Start, FirstOf, RunEnd, CountBefore, LastOfType, Flagged, BehindRun;
    assert EndFrom(address, info.size) == address + info.size;
  }

  lemma TheRun(files: seq<File>, info: File) returns (i: nat, k: nat)
    requires BehindRun(files, info)
    ensures FirstRun(files, info.fileType, i, k)
  {
    hide File.Start, LastOfType;
    LastOfTypeExact(files, info.fileType);
    k := LastOfType(files, info.fileType).value;
    i :| FirstRun(files, info.fileType, i, k);
  }

  lemma InsertedOrder(files: seq<File>, f: File, k: nat)
    requires Ordered(files) && k <= |files| && Insert(files, f, k).Created?
    ensures Ordered(files[..k] + [f] + files[k..]) <==> InPlace(files, f.Start(), k)
  {
    hide File.Start, File.End;
    var more := files[..k] + [f] + files[k..];
    assert more[k] == f && (k > 0 ==> more[k - 1] == files[k - 1]) && (k < |files| ==> more[k + 1] == files[k]);
    if InPlace(files, f.Start(), k) {
      forall i | 0 <= i < k ensures files[i].Start() <= f.Start() && files[i].End() <= f.Start() {
        assert i < k - 1 ==> files[i].End() <= files[k - 1].Start() && files[i].Start() <= files[k - 1].Start();
      }
      forall j | k <= j < |files| ensures f.Start() <= files[j].Start() && f.End() <= files[j].Start() {
        assert j > k ==> files[k].Start() <= files[j].Start();
      }
      OrderedAround(files, f, k);
    }
  }

  lemma OrderedAround(files: seq<File>, f: File, k: nat)
    requires Ordered(files) && k <= |files|
    requires forall i :: 0 <= i < k ==> files[i].Start() <= f.Start() && files[i].End() <= f.Start()
    requires forall j :: k <= j < |files| ==> f.Start() <= files[j].Start() && f.End() <= files[j].Start()
    ensures Ordered(files[..k] + [f] + files[k..])
  {
    hide File.Start, File.End;
    var more := files[..k] + [f] + files[k..];
    forall i, j | 0 <= i < j < |more| ensures more[i].Start() <= more[j].Start() && more[i].End() <= more[j].Start() {
      var a, b := if i < k then i else i - 1, if j < k then j else j - 1;
      assert i != k ==> more[i] == files[a];
      assert j != k ==> more[j] == files[b];
    }
  }

  lemma InsertedInside(files: seq<File>, f: File, k: nat)
    requires k <= |files| && Inside(files)
    ensures Inside(files[..k] + [f] + files[k..]) <==> f.Start() + f.size <= ADDRESS_SPACE
  {
    hide File.Start, File.End;
    var more := files[..k] + [f] + files[k..];
    assert more[k] == f;
    forall i | 0 <= i < |more| && i != k ensures more[i].Start() + more[i].size <= ADDRESS_SPACE {
      assert more[i] == files[if i < k then i else i - 1];
    }
  }

  /**
   * A file with an address of its own begins there, the first of its type begins at the start
   * of its type, and others begin at the least aligned address behind the first run of their
   * type. Files of a remote map carry the remote bit, others no bit but their own; nothing else
   * of a file is changed.
   */
  lemma CreatedAddress(files: seq<File>, remote: bool, info: File)
    requires Ordered(files) && Create(files, remote, info).Created?
    ensures var f := Create(files, remote, info).file;
            && f == info.(address := f.address)
            && (!BehindRun(files, info) ==> f.Start() == WantedAddress(info))
            && (Inside(files) ==> forall i: nat, k: nat :: BehindRun(files, info) && FirstRun(files, info.fileType, i, k) ==>
                 LeastBehind(files, info.fileType, i, k, f.Start()))
            && (remote ==> f.address == f.Start() + 0x8000_0000)
            && (!remote && info.Start() != INVALID_ADDRESS ==> f.address == info.address)
            && (!remote && info.Start() == INVALID_ADDRESS && (Inside(files) || !BehindRun(files, info)) ==> f.address == f.Start())
  {
    var address := Settled(files, info).0;
    FileAt(info, address, remote);
    FlagBit(address, remote);
    RunFound(files, info);
    if !BehindRun(files, info) {
      SettledByAddress(files, info);
    } else if Inside(files) {
      var first, last := TheRun(files, info);
      RunAddress(files, info, first, last);
      var a := PlacedBehindRun(files, remote, info, first, last);
      forall i: nat, k: nat | FirstRun(files, info.fileType, i, k) ensures i == first && k == last {
        RunsEqual(files, info.fileType, i, k, first, last);
      }
    }
    hide File.Start, File.End, Place, AlignedUp, Alignment, LowBits, FirstOf, RunEnd, CountBefore, Flagged, LastOfType, EndFrom, LeastBehind, FirstRun;
  }

  lemma FlagBit(address: uint32, remote: bool)
    ensures Flagged(address, remote) == if remote then Place(address) + 0x8000_0000 else address
    ensures address < ADDRESS_SPACE ==> Place(address) == address
  {
  }

  /** Where the first and the second file of a type lie in an empty map, and how far they are apart. */
  function KnownPlaces(t: FileType): (nat, nat) {
    match t
    case Definition => (0x400_0000, 0x404_0000)
    case ProvidePortData => (0, 0x400)
    case RequirePortData => (0, 0x400)
    case ProvidePortCount => (0x800_0000, 0x800_0400)
    case RequirePortCount => (0x800_0000, 0x800_0400)
    case OtherFile => (0x2000_0000, 0x2000_1000)
  }

  lemma AutomaticAddresses(t: FileType, first: FileName, second: FileName, size: uint32, more: uint32)
    requires 0 < size <= 0x400 && more < 0x100_0000
    ensures var r := Create([], false, File(first, t, INVALID_ADDRESS, size));
            && r.Created? && r.file.Start() == KnownPlaces(t).0
            && var r2 := Create(r.files, false, File(second, t, INVALID_ADDRESS, more));
               r2.Created? && r2.file.Start() == KnownPlaces(t).1 && r2.files == r.files + [r2.file]
  {
    FirstPlace(t, first, size);
    SecondPlace(t, first, second, size, more);
    hide *;
  }

  lemma FirstPlace(t: FileType, name: FileName, size: uint32)
    ensures var f := File(name, t, KnownPlaces(t).0, size);
            Create([], false, File(name, t, INVALID_ADDRESS, size)) == Created([f], f) && f.Start() == KnownPlaces(t).0
  {
    hide File.End, AlignedUp;
    var f := File(name, t, KnownPlaces(t).0, size);
    assert [][..0] + [f] + [][0..] == [f];
  }

  lemma SecondPlace(t: FileType, first: FileName, second: FileName, size: uint32, more: uint32)
    requires 0 < size <= 0x400
    ensures var f, g := File(first, t, KnownPlaces(t).0, size), File(second, t, KnownPlaces(t).1, more);
            Create([f], false, File(second, t, INVALID_ADDRESS, more)) == Created([f] + [g], g) && g.Start() == KnownPlaces(t).1
  {
    var f, g := File(first, t, KnownPlaces(t).0, size), File(second, t, KnownPlaces(t).1, more);
    KnownPlace(t, f, g);
    assert FirstOf([f], 0, t) == 0 && RunEnd([f], 0, t) == 0;
    assert [f][..1] + [g] + [f][1..] == [f] + [g];
    hide AlignedUp, File.End, Place, KnownPlaces;
    StartIs(File(second, t, INVALID_ADDRESS, more));
    PlaceSame(INVALID_ADDRESS);
  }

  lemma KnownPlace(t: FileType, f: File, g: File)
    requires f.address == KnownPlaces(t).0 && g.address == KnownPlaces(t).1 && 0 < f.size <= 0x400
    ensures f.End() == KnownPlaces(t).0 + f.size <= KnownPlaces(t).1 && g.Start() == KnownPlaces(t).1
    ensures AlignedUp(f.End(), t) == KnownPlaces(t).1
  {
    KnownAligned(t, f.size);
    hide AlignedUp;
  }

  lemma KnownAligned(t: FileType, size: uint32)
    requires 0 < size <= 0x400
    ensures AlignedUp(KnownPlaces(t).0 + size, t) == KnownPlaces(t).1
  {
    AlignedUpIs(KnownPlaces(t).0 + size, t);
    hide AlignedUp;
    match t
    case Definition =>
    case ProvidePortData =>
    case RequirePortData =>
    case ProvidePortCount =>
    case RequirePortCount =>
    case OtherFile =>
  }

  // ---------- what the code does not achieve ----------

  /**
   * When the first file of a type gets an automatic address: exactly if nothing before the
   * start of the type reaches into it and nothing behind leaves too little room.
   */
  lemma FirstOfTypeExact(files: seq<File>, remote: bool, info: File)
    requires Ordered(files) && info.Start() == INVALID_ADDRESS && (forall f :: f in files ==> f.fileType != info.fileType)
    ensures var a := StartAddress(info.fileType);
            Create(files, remote, info).Created? <==> !Reached(files, a) && !InTheWay(files, a, EndFrom(a, info.size))
  {
    hide LastOfType, File.Start, File.End, Place, StartAddress, EndFrom, Reached, InTheWay, Create;
    SettledByAddress(files, info);
    PlacedByAddress(files, remote, info);
  }

  /**
   * Provide and require port data share a start address but not a run: once a file of either
   * kind, or any file, lies at the start of a type, no file is the first of that type.
   */
  lemma FirstFileIsRefused(files: seq<File>, remote: bool, info: File, there: File)
    requires Ordered(files) && info.Start() == INVALID_ADDRESS && (forall f :: f in files ==> f.fileType != info.fileType)
    requires there in files && there.Start() == StartAddress(info.fileType)
    requires 0 < info.size && StartAddress(info.fileType) + info.size < U32_MOD
    ensures !Create(files, remote, info).Created?
    ensures StartAddress(info.fileType) == 0 ==> Create(files, remote, info) == Overlap
  {
    hide LastOfType, File.Start, File.End, Place, Create, Ordered, StartAddress;
    var a := StartAddress(info.fileType);
    EndUnwrapped(a, info.size);
    assert InTheWay(files, a, EndFrom(a, info.size));
    FirstOfTypeExact(files, remote, info);
    SettledByAddress(files, info);
    PlacedByAddress(files, remote, info);
  }

  lemma EndUnwrapped(start: uint32, size: uint32)
    requires start + size < U32_MOD
    ensures EndFrom(start, size) == start + size
  {
  }

  /**
   * The command area is protected from files with a right neighbour only: a file that would
   * reach into it is created exactly if no file lies at or behind it, and none reaches into it.
   */
  lemma CommandAreaExact(files: seq<File>, remote: bool, info: File)
    requires Ordered(files) && !BehindRun(files, info) && EndFrom(WantedAddress(info), info.size) > CMD_AREA_START
    ensures var a := WantedAddress(info);
            Create(files, remote, info).Created? <==> !Reached(files, a) && forall f :: f in files ==> f.Start() < a
  {
    hide LastOfType, File.Start, File.End, Place, Create, Ordered, EndFrom, Reached, BehindRun;
    PlacedByAddress(files, remote, info);
  }

  /** Whatever its address, a file that reaches into the command area is the last of the list. */
  lemma CommandAreaLast(files: seq<File>, remote: bool, info: File)
    requires Create(files, remote, info).Created? && Create(files, remote, info).file.End() > CMD_AREA_START
    ensures Settled(files, info).1 == |files| && Create(files, remote, info).files == files + [Create(files, remote, info).file]
  {
    hide Settled, File.Start, File.End, Flagged;
  }

  /** Such a file. */
  lemma CommandAreaIsNotProtected(name: FileName)
    ensures var r := Create([], false, File(name, OtherFile, CMD_AREA_START, 0x400)); r.Created? && r.file.InRange(CMD_AREA_START)
  {
  }

  /** A file behind a run whose 32-bit end wraps is created out of order. */
  lemma WrappingSizeBreaksOrder(a: FileName, b: FileName, c: FileName)
    ensures var files := [File(a, ProvidePortData, 0, 1), File(b, OtherFile, 0x100, 0)];
            var r := Create(files, false, File(c, ProvidePortData, INVALID_ADDRESS, 0xFFFF_FC00));
            Ordered(files) && Inside(files) && r.Created? && !Ordered(r.files)
  {
    var files := [File(a, ProvidePortData, 0, 1), File(b, OtherFile, 0x100, 0)];
    var info := File(c, ProvidePortData, INVALID_ADDRESS, 0xFFFF_FC00);
    assert FirstOf(files, 0, ProvidePortData) == 0 && RunEnd(files, 0, ProvidePortData) == 0;
    var r := Create(files, false, info);
    assert r.files[1].Start() == 0x400 && r.files[2].Start() == 0x100;
  }

  lemma CreatedIs(files: seq<File>, remote: bool, info: File, f: File)
    requires f == info.(address := Flagged(Settled(files, info).0, remote))
    ensures Create(files, remote, info) == Insert(files, f, Settled(files, info).1)
    ensures Create(files, remote, info).Created? ==> Create(files, remote, info).file == f
  {
    hide Settled, Flagged, File.Start, File.End;
  }

  lemma StillListed(files: seq<File>, remote: bool, info: File, last: Option<File>)
    requires Create(files, remote, info).Created? && (last.Some? ==> last.value in files)
    ensures last.Some? ==> last.value in Create(files, remote, info).files
  {
    hide Settled, Flagged, File.Start, File.End;
    var k := Settled(files, info).1;
    assert files == files[..k] + files[k..];
  }

  // ---------- the map ----------

  /** apx_fileMap_t */
  class FileMap {
    const isRemote: bool
    var files: seq<File>
    var lastFile: Option<File>

    /** What every operation keeps: the cache holds a listed file. */
    ghost predicate Valid()
      reads this
    {
      lastFile.Some? ==> lastFile.value in files
    }

    constructor (isRemote: bool)
      ensures Valid() && this.isRemote == isRemote && files == []
    {
      this.isRemote := isRemote;
      files, lastFile := [], None;
    }

    /** find_last_element_of_type */
    method FindLastElementOfType(t: FileType) returns (left: Option<nat>)
      ensures left == LastOfType(files, t)
    {
      var next := 0;
      left := None;
      while next < |files|
        invariant next <= |files| && FirstOf(files, 0, t) == FirstOf(files, next, t)
      {
        if files[next].fileType == t {
          left := Some(next);
          next := next + 1;
          break;
        }
        next := next + 1;
      }
      if left.Some? {
        while next < |files|
          invariant left.Some? && next == left.value + 1 <= |files|
          invariant RunEnd(files, FirstOf(files, 0, t), t) == RunEnd(files, left.value, t)
          decreases |files| - next
        {
          if files[next].fileType == t {
            left := Some(next);
            next := next + 1;
          } else {
            break;
          }
        }
      }
    }

    /** find_next_available_position, as the number of files to the left */
    method FindNextAvailablePosition(a: nat) returns (k: nat)
      ensures k == CountBefore(files, 0, a)
    {
      k := 0;
      while k < |files|
        invariant k <= |files| && CountBefore(files, 0, a) == CountBefore(files, k, a)
      {
        if files[k].Start() < a {
          k := k + 1;
        } else {
          break;
        }
      }
    }

    /** The address and position of a new file: auto_assign_address, or the position of its own address. */
    method Settle(info: File) returns (address: uint32, k: nat)
      ensures (address, k) == Settled(files, info)
    {
      hide File.Start, File.End, AlignedUp, FirstOf, RunEnd, CountBefore;
      if info.Start() != INVALID_ADDRESS {
        address := info.address;
        k := FindNextAvailablePosition(info.Start());
        return;
      }
      var left := FindLastElementOfType(info.fileType);
      if left.None? {
        address := StartAddress(info.fileType);
        k := FindNextAvailablePosition(address);
      } else {
        address := AlignedUp(files[left.value].End(), info.fileType);
        k := left.value + 1;
      }
    }

    /** insert_item, with `k` files to the left; `stopped` if its assertion about the left neighbour fails. */
    method InsertItem(f: File, k: nat) returns (inserted: bool, stopped: bool)
      requires k <= |files|
      modifies `files
      ensures inserted == Insert(old(files), f, k).Created? && stopped == Insert(old(files), f, k).LeftNeighbour?
      ensures files == if inserted then Insert(old(files), f, k).files else old(files)
    {
      hide File.Start, File.End;
      inserted, stopped := true, false;
      if |files| == 0 {
        assert files[..0] + [f] + files[0..] == [f];
        files := [f];
      } else if k > 0 && files[k - 1].End() > f.Start() {
        inserted, stopped := false, true;
      } else if k == |files| {
        assert files[..k] + [f] + files[k..] == files + [f];
        files := files + [f];
      } else if f.End() > files[k].Start() || f.End() > CMD_AREA_START {
        inserted := false;
      } else {
        files := files[..k] + [f] + files[k..];
      }
    }

    /** apx_fileMap_create_file; `stopped` if the assertion of insert_item fails. */
    method CreateFile(info: File) returns (file: Option<File>, stopped: bool)
      requires Valid()
      modifies `files
      ensures var outcome := Create(old(files), isRemote, info);
              && stopped == outcome.LeftNeighbour?
              && (outcome.Created? ==> files == outcome.files && file == Some(outcome.file))
              && (!outcome.Created? ==> files == old(files) && file == None)
      ensures Valid()
      ensures old(Ordered(files)) ==>
        (Ordered(files) <==> (file.Some? ==> InPlace(old(files), StartOf(old(files), info), Settled(old(files), info).1)))
    {
      hide Settled, Flagged, Ordered, Inside, File.End, File.Start, Insert, InPlace, BehindRun;
      if Create(files, isRemote, info).Created? {
        StillListed(files, isRemote, info, lastFile);
        if Ordered(files) {
          CreateKeepsOrder(files, isRemote, info);
        }
      }
      var address, k := Settle(info);
      var f := info.(address := Flagged(address, isRemote));
      CreatedIs(files, isRemote, info, f);
      var inserted;
      inserted, stopped := InsertItem(f, k);
      file := if inserted then Some(f) else None;
    }

    /** apx_fileMap_remove_file */
    method RemoveFile(file: File) returns (error: Error)
      modifies this
      ensures Valid() && lastFile == None && (old(Ordered(files)) ==> Ordered(files))
      ensures if file in old(files) then error == NoError && exists k :: 0 <= k < |old(files)| && old(files)[k] == file && files == old(files)[..k] + old(files)[k + 1..]
              else error == NotFoundError && files == old(files)
    {
      lastFile := None;
      for k := 0 to |files|
        invariant files == old(files) && file !in files[..k]
      {
        if files[k] == file {
          files := files[..k] + files[k + 1..];
          return NoError;
        }
      }
      return NotFoundError;
    }

    /** apx_fileMap_find_by_address: in an ordered list the cache never changes what is found. */
    method FindByAddress(a: nat) returns (file: Option<File>)
      requires Valid()
      modifies `lastFile
      ensures Valid() && (file.None? <==> Find(files, a).None?)
      ensures file.Some? ==> file.value in files && file.value.InRange(a)
      ensures Ordered(files) ==> file == Find(files, a)
    {
      hide Ordered;
      FindNone(files, a);
      if lastFile.Some? && lastFile.value.InRange(a) {
        if Ordered(files) {
          FindOnly(files, a, lastFile.value);
        }
        return lastFile;
      }
      for i := 0 to |files|
        invariant Valid() && Find(files, a) == Find(files[i..], a)
      {
        if files[i].InRange(a) {
          lastFile := Some(files[i]);
          return lastFile;
        }
        assert files[i..][1..] == files[i + 1..];
      }
      return None;
    }

    /** apx_fileMap_find_by_name: with the cache it is some file of that name, the first one if names are unique. */
    method FindByName(name: FileName) returns (file: Option<File>)
      requires Valid()
      modifies `lastFile
      ensures Valid() && (file.None? <==> FindName(files, name).None?)
      ensures file.Some? ==> file.value in files && file.value.name == name
      ensures (forall f, g :: f in files && g in files && f.name == name && g.name == name ==> f == g) ==> file == FindName(files, name)
    {
      FindNameFacts(files, name);
      if lastFile.Some? && lastFile.value.name == name {
        return lastFile;
      }
      for i := 0 to |files|
        invariant Valid() && FindName(files, name) == FindName(files[i..], name)
      {
        if files[i].name == name {
          lastFile := Some(files[i]);
          return lastFile;
        }
        assert files[i..][1..] == files[i + 1..];
      }
      return None;
    }
  }
}
