/** The ZIP reader that takes one binary out of a pinned release archive
    (src/backup_install_rclone.rs), and the writer its tests build archives
    with. The layouts are those of sections 4.3.7, 4.3.12 and 4.3.16 of the
    PKWARE APPNOTE. Deflate and CRC-32 are parameters. */
module ZipArchive {
  import opened Octets
  import opened Text

  type word16 = x: int | 0 <= x < 0x1_0000
  type word32 = x: int | 0 <= x < 0x1_0000_0000

  const U32_LIMIT: int := 0xFFFF_FFFF

  datatype ArchiveError =
    | NoEndRecord | MultiDisk | TruncatedDirectory | Zip64Archive
    | CorruptDirectory | TruncatedEntry | Encrypted | Zip64Entry | TooLarge
    | CorruptLocalHeader | TruncatedLocalHeader | DataOutOfBounds
    | NotInflatable | UnsupportedMethod | WrongSize | WrongChecksum | NotFound

  datatype Result = Ok(contents: Bytes) | Err(error: ArchiveError)

  /** CRC-32 and deflate. `inflate(data, limit)` yields at most `limit` bytes. */
  datatype Codec = Codec(crc: Bytes -> word32, deflate: Bytes -> Bytes, inflate: (Bytes, nat) -> Option<Bytes>)

  /** Inflating undoes deflating, up to the limit. */
  ghost predicate Lossless(c: Codec) {
    forall x: Bytes, limit: nat :: c.inflate(c.deflate(x), limit) == Some(if |x| <= limit then x else x[..limit])
  }

  const EOCD_SIGNATURE: word32 := 0x0605_4b50
  const CENTRAL_SIGNATURE: word32 := 0x0201_4b50
  const LOCAL_SIGNATURE: word32 := 0x0403_4b50
  const EOCD_LEN: nat := 22
  const MAX_COMMENT_LEN: nat := 0xFFFF
  /** The longest central record: its fixed part and three 16-bit lengths. */
  const MAX_RECORD_LEN: nat := 46 + 3 * 0xFFFF

  // ---- little-endian fields -----------------------------------------------

  function Le16(n: word16): (b: Bytes)
    ensures |b| == 2
  {
    [n % 256, n / 256]
  }

  function Le32(n: word32): (b: Bytes)
    ensures |b| == 4
  {
    Le16(n % 0x1_0000) + Le16(n / 0x1_0000)
  }

  function U16At(bytes: Bytes, at: nat): Option<word16> {
    if at + 2 <= |bytes| then Some(bytes[at] as int + 0x100 * bytes[at + 1] as int) else None
  }

  function U32At(bytes: Bytes, at: nat): Option<word32> {
    if at + 4 <= |bytes|
    then Some(bytes[at] as int + 0x100 * bytes[at + 1] as int +
              0x1_0000 * bytes[at + 2] as int + 0x100_0000 * bytes[at + 3] as int)
    else None
  }

  /** `piece` stands at `at` in `bytes`. */
  predicate Holds(bytes: Bytes, at: nat, piece: Bytes) {
    at + |piece| <= |bytes| && bytes[at..at + |piece|] == piece
  }

  lemma HoldsSplit(bytes: Bytes, at: nat, x: Bytes, y: Bytes)
    ensures Holds(bytes, at, x + y) <==> Holds(bytes, at, x) && Holds(bytes, at + |x|, y)
  {
    if at + |x| + |y| <= |bytes| {
      var s := bytes[at..at + |x| + |y|];
      assert s[..|x|] == bytes[at..at + |x|] && s[|x|..] == bytes[at + |x|..at + |x| + |y|];
      assert s == s[..|x|] + s[|x|..];
      assert (x + y)[..|x|] == x && (x + y)[|x|..] == y;
    }
  }

  lemma Le16Field(bytes: Bytes, at: nat, n: word16)
    requires Holds(bytes, at, Le16(n))
    ensures U16At(bytes, at) == Some(n)
  {
  }

  lemma Le32Field(bytes: Bytes, at: nat, n: word32)
    requires Holds(bytes, at, Le32(n))
    ensures U32At(bytes, at) == Some(n)
  {
  }

  // ---- the reader ---------------------------------------------------------

  /** What the reader makes of one central directory record: it moves on to the
      next record, or it answers. */
  datatype Step = Next(at: nat) | Answer(result: Result)

  function EndRecordFrom(archive: Bytes, from: nat, at: nat): (r: Option<nat>)
    requires from <= at
    ensures r.Some? ==> from <= r.value <= at && U32At(archive, r.value) == Some(EOCD_SIGNATURE)
    ensures r.Some? ==> forall i | r.value < i <= at :: U32At(archive, i) != Some(EOCD_SIGNATURE)
    ensures r.None? ==> forall i | from <= i <= at :: U32At(archive, i) != Some(EOCD_SIGNATURE)
  {
    if U32At(archive, at) == Some(EOCD_SIGNATURE) then Some(at)
    else if at == from then None
    else EndRecordFrom(archive, from, at - 1)
  }

  function SaturatingSub(a: nat, b: nat): nat {
    if a < b then 0 else a - b
  }

  /** A central directory record. */
  datatype Record = Record(
    flags: word16, compression: word16, crc: word32, compressed: word32, size: word32, local: word32,
    name: Bytes, extraLen: word16, commentLen: word16)

  function ParseRecord(archive: Bytes, at: nat): (r: Option<Record>)
    ensures r.Some? ==> |r.value.name| < 0x1_0000 && Holds(archive, at + 46, r.value.name)
  {
    var flags, compression := U16At(archive, at + 8), U16At(archive, at + 10);
    var crc, compressed, size := U32At(archive, at + 16), U32At(archive, at + 20), U32At(archive, at + 24);
    var nameLen, extraLen, commentLen := U16At(archive, at + 28), U16At(archive, at + 30), U16At(archive, at + 32);
    var local := U32At(archive, at + 42);
    if local.None? || at + 46 + nameLen.value > |archive| then None else
      Some(Record(flags.value, compression.value, crc.value, compressed.value, size.value, local.value,
                  archive[at + 46..at + 46 + nameLen.value], extraLen.value, commentLen.value))
  }

  function Length(r: Record): nat {
    46 + |r.name| + r.extraLen + r.commentLen
  }

  /** Where the local header at `local` says its data begins. */
  function DataStart(archive: Bytes, local: nat): Option<nat> {
    var nameLen, extraLen := U16At(archive, local + 26), U16At(archive, local + 28);
    if extraLen.None? then None else Some(local + 30 + nameLen.value + extraLen.value)
  }

  function Decode(c: Codec, r: Record, data: Bytes): Result {
    if r.compression != 0 && r.compression != 8 then Err(UnsupportedMethod) else
      var inflated := if r.compression == 0 then Some(data) else c.inflate(data, r.size + 1);
      if inflated.None? then Err(NotInflatable)
      else if |inflated.value| != r.size then Err(WrongSize)
      else if c.crc(inflated.value) != r.crc then Err(WrongChecksum)
      else Ok(inflated.value)
  }

  /** The contents of the entry that `r` describes. */
  function ReadContents(c: Codec, archive: Bytes, r: Record, maxBytes: nat): Result {
    if r.flags % 2 != 0 then Err(Encrypted)
    else if r.compressed == U32_LIMIT || r.size == U32_LIMIT || r.local == U32_LIMIT then Err(Zip64Entry)
    else if r.size > maxBytes then Err(TooLarge)
    else if U32At(archive, r.local) != Some(LOCAL_SIGNATURE) then Err(CorruptLocalHeader)
    else
      match DataStart(archive, r.local)
      case None => Err(TruncatedLocalHeader)
      case Some(start) =>
        if start + r.compressed > |archive| then Err(DataOutOfBounds)
        else Decode(c, r, archive[start..start + r.compressed])
  }

  function ReadRecord(c: Codec, archive: Bytes, name: Bytes, maxBytes: nat, at: nat): (step: Step)
    ensures step.Next? ==> at + 46 <= step.at <= at + MAX_RECORD_LEN
  {
    if U32At(archive, at) != Some(CENTRAL_SIGNATURE) then Answer(Err(CorruptDirectory)) else
      match ParseRecord(archive, at)
      case None => Answer(Err(TruncatedEntry))
      case Some(r) =>
        if r.name != name then Next(at + Length(r)) else Answer(ReadContents(c, archive, r, maxBytes))
  }

  /** The reader of one archive: what it makes of the record at each position. */
  function Reader(c: Codec, archive: Bytes, name: Bytes, maxBytes: nat): (read: nat -> Step)
    ensures Advances(read)
  {
    (at: nat) => ReadRecord(c, archive, name, maxBytes, at)
  }

  ghost predicate Advances(read: nat -> Step) {
    forall at: nat :: read(at).Next? ==> at + 46 <= read(at).at <= at + MAX_RECORD_LEN
  }

  function Scan(read: nat -> Step, at: nat, entries: nat): Result
    decreases entries
  {
    if entries == 0 then Err(NotFound) else
      match read(at)
      case Next(next) => Scan(read, next, entries - 1)
      case Answer(result) => result
  }

  /** The cursor after `skipped` records. */
  function Cursor(read: nat -> Step, at: nat, skipped: nat): nat
    decreases skipped
  {
    if skipped == 0 then at else
      match read(at)
      case Next(next) => Cursor(read, next, skipped - 1)
      case Answer(_) => at
  }

  lemma {:induction false} CursorGrowth(read: nat -> Step, at: nat, skipped: nat)
    requires Advances(read)
    ensures Cursor(read, at, skipped) <= at + MAX_RECORD_LEN * skipped
    decreases skipped
  {
    if skipped > 0 && read(at).Next? {
      CursorGrowth(read, read(at).at, skipped - 1);
    }
  }

  /** No position formed from the record at `at`, nor from the local header it
      names, leaves 64 bits. */
  ghost predicate PositionsFit(archive: Bytes, at: nat) {
    && at + MAX_RECORD_LEN < 0x1_0000_0000_0000_0000
    && (ParseRecord(archive, at).Some? ==> LocalFits(archive, ParseRecord(archive, at).value))
  }

  ghost predicate LocalFits(archive: Bytes, r: Record) {
    && r.local + 30 < 0x1_0000_0000_0000_0000
    && (DataStart(archive, r.local).Some? ==>
          DataStart(archive, r.local).value + r.compressed < 0x1_0000_0000_0000_0000)
  }

  lemma RecordFits(archive: Bytes, at: nat)
    requires at + MAX_RECORD_LEN < 0x1_0000_0000_0000_0000
    ensures PositionsFit(archive, at)
  {
  }

  lemma CursorInRange(read: nat -> Step, offset: word32, skipped: word16)
    requires Advances(read)
    ensures Cursor(read, offset, skipped) + MAX_RECORD_LEN < 0x1_0000_0000_0000_0000
  {
    CursorGrowth(read, offset, skipped);
  }

  /** Whatever the archive holds, no position the reader forms leaves 64 bits. */
  lemma CursorFits(c: Codec, archive: Bytes, name: Bytes, maxBytes: nat, offset: word32, skipped: word16)
    ensures PositionsFit(archive, Cursor(Reader(c, archive, name, maxBytes), offset, skipped))
  {
    CursorInRange(Reader(c, archive, name, maxBytes), offset, skipped);
    RecordFits(archive, Cursor(Reader(c, archive, name, maxBytes), offset, skipped));
  }

  function EndRecord(archive: Bytes): Option<nat> {
    EndRecordFrom(archive, SaturatingSub(|archive|, EOCD_LEN + MAX_COMMENT_LEN), SaturatingSub(|archive|, EOCD_LEN))
  }

  /** Where the end record says the central directory is. */
  datatype Located = Located(entries: word16, offset: word32) | Unusable(error: ArchiveError)

  function Locate(archive: Bytes): Located {
    match EndRecord(archive)
    case None => Unusable(NoEndRecord)
    case Some(eocd) =>
      if U16At(archive, eocd + 4) != Some(0) || U16At(archive, eocd + 6) != Some(0) then Unusable(MultiDisk) else
        match (U16At(archive, eocd + 10), U32At(archive, eocd + 16))
        case (Some(entries), Some(offset)) =>
          if offset == U32_LIMIT then Unusable(Zip64Archive) else Located(entries, offset)
        case _ => Unusable(TruncatedDirectory)
  }

  /** What `extract_entry` answers. */
  function Extract(c: Codec, archive: Bytes, name: Bytes, maxBytes: nat): Result {
    match Locate(archive)
    case Unusable(error) => Err(error)
    case Located(entries, offset) => Scan(Reader(c, archive, name, maxBytes), offset, entries)
  }

  /** The backward search for the end record. */
  method FindEndRecord(archive: Bytes, from: nat, last: nat) returns (r: Option<nat>)
    requires from <= last
    ensures r == EndRecordFrom(archive, from, last)
  {
    var at := last;
    while U32At(archive, at) != Some(EOCD_SIGNATURE)
      invariant from <= at
      invariant EndRecordFrom(archive, from, last) == EndRecordFrom(archive, from, at)
      decreases at
    {
      if at == from {
        return None;
      }
      at := at - 1;
    }
    r := Some(at);
  }

  /** The walk over the central directory. */
  method ScanDirectory(read: nat -> Step, offset: word32, entries: word16) returns (r: Result)
    ensures r == Scan(read, offset, entries)
  {
    var at: nat := offset;
    for i := 0 to entries
      invariant Scan(read, offset, entries) == Scan(read, at, entries - i)
      invariant at == Cursor(read, offset, i)
    {
      match read(at) {
        case Answer(result) => return result;
        case Next(next) =>
          CursorNext(read, offset, i);
          at := next;
      }
    }
    r := Err(NotFound);
  }

  lemma {:induction false} CursorNext(read: nat -> Step, at: nat, skipped: nat)
    requires read(Cursor(read, at, skipped)).Next?
    ensures Cursor(read, at, skipped + 1) == read(Cursor(read, at, skipped)).at
    decreases skipped
  {
    if skipped > 0 && read(at).Next? {
      CursorNext(read, read(at).at, skipped - 1);
    }
  }

  /** `extract_entry`. */
  method ExtractEntry(c: Codec, archive: Bytes, name: Bytes, maxBytes: nat) returns (r: Result)
    ensures r == Extract(c, archive, name, maxBytes)
  {
    var searchFrom := SaturatingSub(|archive|, EOCD_LEN + MAX_COMMENT_LEN);
    var eocd := FindEndRecord(archive, searchFrom, SaturatingSub(|archive|, EOCD_LEN));
    if eocd.None? {
      return Err(NoEndRecord);
    }
    if U16At(archive, eocd.value + 4) != Some(0) || U16At(archive, eocd.value + 6) != Some(0) {
      return Err(MultiDisk);
    }
    var entries, offset := U16At(archive, eocd.value + 10), U32At(archive, eocd.value + 16);
    if entries.None? || offset.None? {
      return Err(TruncatedDirectory);
    }
    if offset.value == U32_LIMIT {
      return Err(Zip64Archive);
    }
    r := ScanDirectory(Reader(c, archive, name, maxBytes), offset.value, entries.value);
  }

  /** `contents` is an entry `name` as the archive declares it: a central
      record with that name, unencrypted, whose stored or deflated data is in
      the archive, with the declared size and checksum. */
  ghost predicate Declares(c: Codec, archive: Bytes, name: Bytes, at: nat, contents: Bytes) {
    && U32At(archive, at) == Some(CENTRAL_SIGNATURE)
    && ParseRecord(archive, at).Some?
    && var r := ParseRecord(archive, at).value;
       && r.name == name && r.flags % 2 == 0 && r.size == |contents| && r.crc == c.crc(contents)
       && U32At(archive, r.local) == Some(LOCAL_SIGNATURE)
       && exists data: Bytes, start: nat ::
            && DataStart(archive, r.local) == Some(start)
            && Holds(archive, start, data) && |data| == r.compressed
            && if r.compression == 0 then contents == data
               else r.compression == 8 && c.inflate(data, |contents| + 1) == Some(contents)
  }

  lemma ReadContentsSound(c: Codec, archive: Bytes, name: Bytes, maxBytes: nat, at: nat)
    requires U32At(archive, at) == Some(CENTRAL_SIGNATURE) && ParseRecord(archive, at).Some?
    requires var r := ParseRecord(archive, at).value;
             r.name == name && ReadContents(c, archive, r, maxBytes).Ok?
    ensures var contents := ReadContents(c, archive, ParseRecord(archive, at).value, maxBytes).contents;
            Declares(c, archive, name, at, contents) && |contents| <= maxBytes
  {
    var r := ParseRecord(archive, at).value;
    var start := DataStart(archive, r.local).value;
    assert Holds(archive, start, archive[start..start + r.compressed]);
  }

  /** The record that stands at each position. */
  function Records(archive: Bytes): nat -> Option<Record> {
    (at: nat) => ParseRecord(archive, at)
  }

  /** Where the directory's record with that number is, counting from 0: the
      records follow each other by their declared lengths. */
  function RecordAt(records: nat -> Option<Record>, at: nat, k: nat): Option<nat>
    decreases k
  {
    if k == 0 then Some(at) else
      match records(at)
      case None => None
      case Some(r) => RecordAt(records, at + Length(r), k - 1)
  }

  ghost predicate NamedOtherwise(records: nat -> Option<Record>, at: Option<nat>, name: Bytes) {
    at.Some? && records(at.value).Some? && records(at.value).value.name != name
  }

  /** The record `k` from `at` on is the first with that name. */
  ghost predicate IsFirst(records: nat -> Option<Record>, at: nat, k: nat, name: Bytes) {
    && RecordAt(records, at, k).Some?
    && records(RecordAt(records, at, k).value).Some?
    && records(RecordAt(records, at, k).value).value.name == name
    && forall i | 0 <= i < k :: NamedOtherwise(records, RecordAt(records, at, i), name)
  }

  /** The record `k` from `at` on is the first with that name, and what it
      describes is read as `contents`. */
  ghost predicate Found(c: Codec, archive: Bytes, name: Bytes, maxBytes: nat, at: nat, k: nat, contents: Bytes) {
    var records := Records(archive);
    && IsFirst(records, at, k, name)
    && U32At(archive, RecordAt(records, at, k).value) == Some(CENTRAL_SIGNATURE)
    && ReadContents(c, archive, records(RecordAt(records, at, k).value).value, maxBytes) == Ok(contents)
  }

  lemma FoundHere(c: Codec, archive: Bytes, name: Bytes, maxBytes: nat, at: nat, contents: Bytes)
    requires ReadRecord(c, archive, name, maxBytes, at) == Answer(Ok(contents))
    ensures Found(c, archive, name, maxBytes, at, 0, contents)
  {
    assert RecordAt(Records(archive), at, 0) == Some(at);
  }

  /** A record that is passed over has another name, and the next follows it. */
  lemma PassedOver(c: Codec, archive: Bytes, name: Bytes, maxBytes: nat, at: nat)
    requires ReadRecord(c, archive, name, maxBytes, at).Next?
    ensures NamedOtherwise(Records(archive), Some(at), name)
    ensures ReadRecord(c, archive, name, maxBytes, at).at == at + Length(Records(archive)(at).value)
  {
  }

  lemma {:induction false} IsFirstNext(records: nat -> Option<Record>, at: nat, next: nat, k: nat, name: Bytes)
    requires NamedOtherwise(records, Some(at), name) && next == at + Length(records(at).value)
    requires IsFirst(records, next, k, name)
    ensures IsFirst(records, at, k + 1, name) && RecordAt(records, at, k + 1) == RecordAt(records, next, k)
  {
    forall i | 0 <= i < k + 1 ensures NamedOtherwise(records, RecordAt(records, at, i), name) {
      if i > 0 {
        assert RecordAt(records, at, i) == RecordAt(records, next, i - 1);
        assert NamedOtherwise(records, RecordAt(records, next, i - 1), name);
      }
    }
  }

  lemma FoundNext(c: Codec, archive: Bytes, name: Bytes, maxBytes: nat, at: nat, k: nat, contents: Bytes)
    requires ReadRecord(c, archive, name, maxBytes, at).Next?
    requires Found(c, archive, name, maxBytes, ReadRecord(c, archive, name, maxBytes, at).at, k, contents)
    ensures Found(c, archive, name, maxBytes, at, k + 1, contents)
  {
    PassedOver(c, archive, name, maxBytes, at);
    IsFirstNext(Records(archive), at, ReadRecord(c, archive, name, maxBytes, at).at, k, name);
  }

  /** An answer with contents comes from the first record of the name. */
  lemma {:induction false} ScanSound(c: Codec, archive: Bytes, name: Bytes, maxBytes: nat, at: nat, entries: nat)
    returns (k: nat)
    requires Scan(Reader(c, archive, name, maxBytes), at, entries).Ok?
    ensures k < entries
    ensures Found(c, archive, name, maxBytes, at, k, Scan(Reader(c, archive, name, maxBytes), at, entries).contents)
    decreases entries
  {
    var read := Reader(c, archive, name, maxBytes);
    var contents := Scan(read, at, entries).contents;
    match read(at) {
      case Answer(_) =>
        k := 0;
        FoundHere(c, archive, name, maxBytes, at, contents);
      case Next(next) =>
        k := ScanSound(c, archive, name, maxBytes, next, entries - 1);
        FoundNext(c, archive, name, maxBytes, at, k, contents);
        k := k + 1;
    }
  }

  /** Whatever bytes the reader is given: what it returns is declared by the
      first record of the asked name among the directory's entries, within the
      limit, and passes its checksum. */
  lemma ExtractSound(c: Codec, archive: Bytes, name: Bytes, maxBytes: nat)
    ensures var r := Extract(c, archive, name, maxBytes);
            r.Ok? ==>
              && |r.contents| <= maxBytes
              && Locate(archive).Located?
              && exists k | 0 <= k < Locate(archive).entries ::
                   && IsFirst(Records(archive), Locate(archive).offset, k, name)
                   && Declares(c, archive, name, RecordAt(Records(archive), Locate(archive).offset, k).value, r.contents)
  {
    if Extract(c, archive, name, maxBytes).Ok? {
      var Located(entries, offset) := Locate(archive);
      var k := ScanSound(c, archive, name, maxBytes, offset, entries);
      ReadContentsSound(c, archive, name, maxBytes, RecordAt(Records(archive), offset, k).value);
    }
  }

  // ---- the writer ---------------------------------------------------------

  datatype Entry = Entry(name: Bytes, contents: Bytes, deflated: bool)

  function Data(c: Codec, e: Entry): Bytes {
    if e.deflated then c.deflate(e.contents) else e.contents
  }

  function Zeros(n: nat): (b: Bytes)
    ensures |b| == n
  {
    seq(n, _ => 0)
  }

  /** The fields the local header and the central record share. */
  datatype Fields = Fields(compression: word16, crc: word32, compressed: word32, size: word32, nameLen: word16)

  /** Lengths are truncated to their fields, as the casts in the writer do. */
  function FieldsOf(c: Codec, e: Entry): Fields {
    Fields(if e.deflated then 8 else 0, c.crc(e.contents), |Data(c, e)| % 0x1_0000_0000, |e.contents| % 0x1_0000_0000,
           |e.name| % 0x1_0000)
  }

  function Common(f: Fields): (b: Bytes)
    ensures |b| == 24
  {
    Le16(0) + Le16(f.compression) + Zeros(4) + Le32(f.crc) + Le32(f.compressed) + Le32(f.size) + Le16(f.nameLen) + Le16(0)
  }

  function LocalFixed(f: Fields): (b: Bytes)
    ensures |b| == 30
  {
    Le32(LOCAL_SIGNATURE) + Le16(20) + Common(f)
  }

  function CentralFixed(f: Fields, offset: word32): (b: Bytes)
    ensures |b| == 46
  {
    Le32(CENTRAL_SIGNATURE) + Le16(20) + Le16(20) + Common(f) + Zeros(6) + Le32(0) + Le32(offset)
  }

  function Local(c: Codec, e: Entry): (b: Bytes)
    ensures |b| == 30 + |e.name| + |Data(c, e)|
  {
    LocalFixed(FieldsOf(c, e)) + e.name + Data(c, e)
  }

  function Central(c: Codec, e: Entry, offset: nat): (b: Bytes)
    ensures |b| == 46 + |e.name|
  {
    CentralFixed(FieldsOf(c, e), offset % 0x1_0000_0000) + e.name
  }

  /** How entries are laid out: the local part, and the central record given
      where the local part begins. */
  datatype Layout = Layout(local: Entry -> Bytes, central: (Entry, nat) -> Bytes)

  function ZipLayout(c: Codec): Layout {
    Layout(e => Local(c, e), (e, offset) => Central(c, e, offset))
  }

  function Locals(l: Layout, es: seq<Entry>): Bytes {
    if es == [] then [] else l.local(es[0]) + Locals(l, es[1..])
  }

  function Directory(l: Layout, es: seq<Entry>, offset: nat): Bytes {
    if es == [] then [] else l.central(es[0], offset) + Directory(l, es[1..], offset + |l.local(es[0])|)
  }

  function EndOfDirectory(entries: word16, size: word32, offset: word32): (b: Bytes)
    ensures |b| == EOCD_LEN
  {
    Le32(EOCD_SIGNATURE) + Zeros(4) + Le16(entries) + Le16(entries) + Le32(size) + Le32(offset) + Le16(0)
  }

  function EndOf(entries: nat, size: nat, offset: nat): (b: Bytes)
    ensures |b| == EOCD_LEN
  {
    EndOfDirectory(entries % 0x1_0000, size % 0x1_0000_0000, offset % 0x1_0000_0000)
  }

  function Archive(c: Codec, es: seq<Entry>): Bytes {
    var locals, directory := Locals(ZipLayout(c), es), Directory(ZipLayout(c), es, 0);
    locals + directory + EndOf(|es|, |directory|, |locals|)
  }

  lemma {:induction false} LocalsAppend(l: Layout, es: seq<Entry>, e: Entry)
    ensures Locals(l, es + [e]) == Locals(l, es) + l.local(e)
  {
    if es != [] {
      assert (es + [e])[1..] == es[1..] + [e];
      LocalsAppend(l, es[1..], e);
      Regroup(l.local(es[0]), Locals(l, es[1..]), l.local(e));
    } else {
      assert es + [e] == [e];
    }
  }

  lemma {:induction false} DirectoryAppend(l: Layout, es: seq<Entry>, e: Entry, offset: nat)
    ensures Directory(l, es + [e], offset) == Directory(l, es, offset) + l.central(e, offset + |Locals(l, es)|)
  {
    if es != [] {
      var next := offset + |l.local(es[0])|;
      assert (es + [e])[1..] == es[1..] + [e];
      DirectoryAppend(l, es[1..], e, next);
      Regroup(l.central(es[0], offset), Directory(l, es[1..], next), l.central(e, offset + |Locals(l, es)|));
    } else {
      assert es + [e] == [e];
    }
  }

  /** The loop of the tests' `zip`. */
  method WriteEntries(l: Layout, es: seq<Entry>) returns (out: Bytes, central: Bytes)
    ensures out == Locals(l, es) && central == Directory(l, es, 0)
  {
    out, central := [], [];
    for i := 0 to |es|
      invariant out == Locals(l, es[..i])
      invariant central == Directory(l, es[..i], 0)
    {
      assert es[..i + 1] == es[..i] + [es[i]];
      LocalsAppend(l, es[..i], es[i]);
      DirectoryAppend(l, es[..i], es[i], 0);
      central := central + l.central(es[i], |out|);
      out := out + l.local(es[i]);
    }
    assert es[..|es|] == es;
  }

  /** The tests' `zip`. */
  method Zip(c: Codec, es: seq<Entry>) returns (archive: Bytes)
    ensures archive == Archive(c, es)
  {
    var out, central := WriteEntries(ZipLayout(c), es);
    archive := out + central + EndOf(|es|, |central|, |out|);
  }

  // ---- the reader undoes the writer ---------------------------------------

  lemma CommonParts(f: Fields, bytes: Bytes, at: nat)
    requires Holds(bytes, at, Common(f))
    ensures Holds(bytes, at, Le16(0)) && Holds(bytes, at + 2, Le16(f.compression)) && Holds(bytes, at + 8, Le32(f.crc))
    ensures Holds(bytes, at + 12, Le32(f.compressed)) && Holds(bytes, at + 16, Le32(f.size))
    ensures Holds(bytes, at + 20, Le16(f.nameLen)) && Holds(bytes, at + 22, Le16(0))
  {
    var p1 := Le16(0) + Le16(f.compression);
    var p2 := p1 + Zeros(4);
    var p3 := p2 + Le32(f.crc);
    var p4 := p3 + Le32(f.compressed);
    var p5 := p4 + Le32(f.size);
    HoldsSplit(bytes, at, p5 + Le16(f.nameLen), Le16(0));
    HoldsSplit(bytes, at, p5, Le16(f.nameLen));
    HoldsSplit(bytes, at, p4, Le32(f.size));
    HoldsSplit(bytes, at, p3, Le32(f.compressed));
    HoldsSplit(bytes, at, p2, Le32(f.crc));
    HoldsSplit(bytes, at, p1, Zeros(4));
    HoldsSplit(bytes, at, Le16(0), Le16(f.compression));
  }

  lemma CommonFields(f: Fields, bytes: Bytes, at: nat)
    requires Holds(bytes, at, Common(f))
    ensures U16At(bytes, at) == Some(0) && U16At(bytes, at + 2) == Some(f.compression)
    ensures U32At(bytes, at + 8) == Some(f.crc) && U32At(bytes, at + 12) == Some(f.compressed)
    ensures U32At(bytes, at + 16) == Some(f.size) && U16At(bytes, at + 20) == Some(f.nameLen)
    ensures U16At(bytes, at + 22) == Some(0)
  {
    CommonParts(f, bytes, at);
    Le16Field(bytes, at, 0);
    Le16Field(bytes, at + 2, f.compression);
    Le32Field(bytes, at + 8, f.crc);
    Le32Field(bytes, at + 12, f.compressed);
    Le32Field(bytes, at + 16, f.size);
    Le16Field(bytes, at + 20, f.nameLen);
    Le16Field(bytes, at + 22, 0);
  }

  lemma ZeroField(bytes: Bytes, at: nat, n: nat)
    requires Holds(bytes, at, Zeros(n)) && n >= 2
    ensures U16At(bytes, at) == Some(0)
  {
  }

  lemma CentralParts(f: Fields, offset: word32, bytes: Bytes, at: nat)
    requires Holds(bytes, at, CentralFixed(f, offset))
    ensures Holds(bytes, at, Le32(CENTRAL_SIGNATURE)) && Holds(bytes, at + 8, Common(f))
    ensures Holds(bytes, at + 32, Zeros(6)) && Holds(bytes, at + 42, Le32(offset))
  {
    var p1 := Le32(CENTRAL_SIGNATURE) + Le16(20);
    var p2 := p1 + Le16(20);
    var p3 := p2 + Common(f);
    var p4 := p3 + Zeros(6);
    HoldsSplit(bytes, at, p4 + Le32(0), Le32(offset));
    HoldsSplit(bytes, at, p4, Le32(0));
    HoldsSplit(bytes, at, p3, Zeros(6));
    HoldsSplit(bytes, at, p2, Common(f));
    HoldsSplit(bytes, at, p1, Le16(20));
    HoldsSplit(bytes, at, Le32(CENTRAL_SIGNATURE), Le16(20));
  }

  /** The written record of an entry with these fields is read as this record. */
  lemma CentralFields(f: Fields, offset: word32, name: Bytes, bytes: Bytes, at: nat)
    requires Holds(bytes, at, CentralFixed(f, offset) + name) && |name| == f.nameLen
    ensures U32At(bytes, at) == Some(CENTRAL_SIGNATURE)
    ensures ParseRecord(bytes, at) == Some(Record(0, f.compression, f.crc, f.compressed, f.size, offset, name, 0, 0))
  {
    HoldsSplit(bytes, at, CentralFixed(f, offset), name);
    CentralParts(f, offset, bytes, at);
    Le32Field(bytes, at, CENTRAL_SIGNATURE);
    CommonFields(f, bytes, at + 8);
    ZeroField(bytes, at + 32, 6);
    Le32Field(bytes, at + 42, offset);
  }

  lemma LocalParts(f: Fields, name: Bytes, data: Bytes, bytes: Bytes, at: nat)
    requires Holds(bytes, at, LocalFixed(f) + name + data)
    ensures Holds(bytes, at, Le32(LOCAL_SIGNATURE)) && Holds(bytes, at + 6, Common(f))
    ensures Holds(bytes, at + 30 + |name|, data)
  {
    var p1 := Le32(LOCAL_SIGNATURE) + Le16(20);
    HoldsSplit(bytes, at, LocalFixed(f) + name, data);
    HoldsSplit(bytes, at, LocalFixed(f), name);
    HoldsSplit(bytes, at, p1, Common(f));
    HoldsSplit(bytes, at, Le32(LOCAL_SIGNATURE), Le16(20));
  }

  lemma LocalFields(f: Fields, name: Bytes, data: Bytes, bytes: Bytes, at: nat)
    requires Holds(bytes, at, LocalFixed(f) + name + data) && |name| == f.nameLen
    ensures U32At(bytes, at) == Some(LOCAL_SIGNATURE)
    ensures DataStart(bytes, at) == Some(at + 30 + |name|)
    ensures Holds(bytes, at + 30 + |name|, data)
  {
    LocalParts(f, name, data, bytes, at);
    Le32Field(bytes, at, LOCAL_SIGNATURE);
    CommonFields(f, bytes, at + 6);
  }

  /** The entry's lengths fit their fields. */
  predicate Fits(c: Codec, e: Entry) {
    |e.name| < 0x1_0000 && |Data(c, e)| < U32_LIMIT && |e.contents| < U32_LIMIT
  }

  function RecordOf(c: Codec, e: Entry, offset: word32): Record
    requires Fits(c, e)
  {
    Record(0, if e.deflated then 8 else 0, c.crc(e.contents), |Data(c, e)|, |e.contents|, offset, e.name, 0, 0)
  }

  /** Decoding what was written gives the contents back. */
  lemma DecodeData(c: Codec, e: Entry, offset: word32)
    requires Lossless(c) && Fits(c, e)
    ensures Decode(c, RecordOf(c, e, offset), Data(c, e)) == Ok(e.contents)
  {
  }

  /** The header fields without truncation. */
  function PlainFields(c: Codec, e: Entry): Fields
    requires Fits(c, e)
  {
    Fields(if e.deflated then 8 else 0, c.crc(e.contents), |Data(c, e)|, |e.contents|, |e.name|)
  }

  lemma FieldsFit(c: Codec, e: Entry)
    requires Fits(c, e)
    ensures FieldsOf(c, e) == PlainFields(c, e)
  {
  }

  lemma ReadLocal(c: Codec, f: Fields, name: Bytes, data: Bytes, bytes: Bytes, r: Record, maxBytes: nat)
    requires r.flags == 0 && r.compressed < U32_LIMIT && r.size < U32_LIMIT && r.local < U32_LIMIT
    requires Holds(bytes, r.local, LocalFixed(f) + name + data) && |name| == f.nameLen && |data| == r.compressed
    ensures ReadContents(c, bytes, r, maxBytes) == if r.size > maxBytes then Err(TooLarge) else Decode(c, r, data)
  {
    LocalFields(f, name, data, bytes, r.local);
  }

  lemma ReadBack(c: Codec, e: Entry, offset: word32, bytes: Bytes, maxBytes: nat)
    requires Lossless(c) && Fits(c, e) && offset < U32_LIMIT && Holds(bytes, offset, Local(c, e))
    ensures ReadContents(c, bytes, RecordOf(c, e, offset), maxBytes) ==
            if |e.contents| > maxBytes then Err(TooLarge) else Ok(e.contents)
  {
    FieldsFit(c, e);
    ReadLocal(c, FieldsOf(c, e), e.name, Data(c, e), bytes, RecordOf(c, e, offset), maxBytes);
    DecodeData(c, e, offset);
  }

  /** What reading `name` back must answer: the first entry of that name. */
  function Wanted(es: seq<Entry>, name: Bytes, maxBytes: nat): Result {
    if es == [] then Err(NotFound)
    else if es[0].name == name then (if |es[0].contents| > maxBytes then Err(TooLarge) else Ok(es[0].contents))
    else Wanted(es[1..], name, maxBytes)
  }

  function Served(e: Entry, name: Bytes, maxBytes: nat, next: nat): Step {
    if e.name != name then Next(next) else Answer(if |e.contents| > maxBytes then Err(TooLarge) else Ok(e.contents))
  }

  /** Wherever the entry's two parts stand, the reader skips its record or
      answers with its contents. */
  ghost predicate ReadsBack(read: nat -> Step, l: Layout, bytes: Bytes, name: Bytes, maxBytes: nat, e: Entry) {
    forall offset: nat, at: nat :: ReadsBackAt(read, l, bytes, name, maxBytes, e, offset, at)
  }

  ghost predicate ReadsBackAt(
    read: nat -> Step, l: Layout, bytes: Bytes, name: Bytes, maxBytes: nat, e: Entry, offset: nat, at: nat)
  {
    offset < U32_LIMIT && Holds(bytes, offset, l.local(e)) && Holds(bytes, at, l.central(e, offset)) ==>
      read(at) == Served(e, name, maxBytes, at + |l.central(e, offset)|)
  }

  lemma {:induction false} ScanBack(
      read: nat -> Step, l: Layout, es: seq<Entry>, bytes: Bytes, name: Bytes, maxBytes: nat, offset: nat, at: nat)
    requires forall e | e in es :: ReadsBack(read, l, bytes, name, maxBytes, e)
    requires offset + |Locals(l, es)| < U32_LIMIT
    requires Holds(bytes, offset, Locals(l, es)) && Holds(bytes, at, Directory(l, es, offset))
    ensures Scan(read, at, |es|) == Wanted(es, name, maxBytes)
    decreases |es|
  {
    if es != [] {
      var e := es[0];
      var next := offset + |l.local(e)|;
      HoldsSplit(bytes, offset, l.local(e), Locals(l, es[1..]));
      HoldsSplit(bytes, at, l.central(e, offset), Directory(l, es[1..], next));
      assert ReadsBack(read, l, bytes, name, maxBytes, e);
      assert ReadsBackAt(read, l, bytes, name, maxBytes, e, offset, at);
      ScanBack(read, l, es[1..], bytes, name, maxBytes, next, at + |l.central(e, offset)|);
    }
  }

  lemma {:induction false} CentralBack(c: Codec, e: Entry, offset: word32, bytes: Bytes, at: nat)
    requires Fits(c, e) && Holds(bytes, at, Central(c, e, offset))
    ensures U32At(bytes, at) == Some(CENTRAL_SIGNATURE)
    ensures ParseRecord(bytes, at) == Some(RecordOf(c, e, offset))
  {
    FieldsFit(c, e);
    var f := FieldsOf(c, e);
    assert Central(c, e, offset) == CentralFixed(f, offset) + e.name;
    CentralFields(f, offset, e.name, bytes, at);
  }

  lemma ServeEntry(c: Codec, e: Entry, offset: word32, bytes: Bytes, name: Bytes, maxBytes: nat, at: nat)
    requires Lossless(c) && Fits(c, e) && offset < U32_LIMIT
    requires Holds(bytes, offset, Local(c, e)) && Holds(bytes, at, Central(c, e, offset))
    ensures ReadRecord(c, bytes, name, maxBytes, at) == Served(e, name, maxBytes, at + 46 + |e.name|)
  {
    CentralBack(c, e, offset, bytes, at);
    ReadBack(c, e, offset, bytes, maxBytes);
  }

  lemma EntryReadsBackAt(c: Codec, e: Entry, bytes: Bytes, name: Bytes, maxBytes: nat, offset: nat, at: nat)
    requires Lossless(c) && Fits(c, e)
    ensures ReadsBackAt(Reader(c, bytes, name, maxBytes), ZipLayout(c), bytes, name, maxBytes, e, offset, at)
  {
    if offset < U32_LIMIT && Holds(bytes, offset, Local(c, e)) && Holds(bytes, at, Central(c, e, offset)) {
      ServeEntry(c, e, offset, bytes, name, maxBytes, at);
    }
  }

  lemma EntryReadsBack(c: Codec, e: Entry, bytes: Bytes, name: Bytes, maxBytes: nat)
    requires Lossless(c) && Fits(c, e)
    ensures ReadsBack(Reader(c, bytes, name, maxBytes), ZipLayout(c), bytes, name, maxBytes, e)
  {
    forall offset: nat, at: nat
      ensures ReadsBackAt(Reader(c, bytes, name, maxBytes), ZipLayout(c), bytes, name, maxBytes, e, offset, at)
    {
      EntryReadsBackAt(c, e, bytes, name, maxBytes, offset, at);
    }
  }

  lemma EntriesReadBack(c: Codec, es: seq<Entry>, bytes: Bytes, name: Bytes, maxBytes: nat)
    requires Lossless(c) && forall e | e in es :: Fits(c, e)
    ensures forall e | e in es :: ReadsBack(Reader(c, bytes, name, maxBytes), ZipLayout(c), bytes, name, maxBytes, e)
  {
    forall e | e in es ensures ReadsBack(Reader(c, bytes, name, maxBytes), ZipLayout(c), bytes, name, maxBytes, e) {
      EntryReadsBack(c, e, bytes, name, maxBytes);
    }
  }

  lemma EndParts(entries: word16, size: word32, offset: word32, bytes: Bytes, at: nat)
    requires Holds(bytes, at, EndOfDirectory(entries, size, offset))
    ensures Holds(bytes, at, Le32(EOCD_SIGNATURE)) && Holds(bytes, at + 4, Zeros(4))
    ensures Holds(bytes, at + 10, Le16(entries)) && Holds(bytes, at + 16, Le32(offset))
  {
    var p1 := Le32(EOCD_SIGNATURE) + Zeros(4);
    var p2 := p1 + Le16(entries);
    var p3 := p2 + Le16(entries);
    var p4 := p3 + Le32(size);
    HoldsSplit(bytes, at, p4 + Le32(offset), Le16(0));
    HoldsSplit(bytes, at, p4, Le32(offset));
    HoldsSplit(bytes, at, p3, Le32(size));
    HoldsSplit(bytes, at, p2, Le16(entries));
    HoldsSplit(bytes, at, p1, Le16(entries));
    HoldsSplit(bytes, at, Le32(EOCD_SIGNATURE), Zeros(4));
  }

  lemma EndFields(entries: word16, size: word32, offset: word32, bytes: Bytes, at: nat)
    requires Holds(bytes, at, EndOfDirectory(entries, size, offset))
    ensures U32At(bytes, at) == Some(EOCD_SIGNATURE)
    ensures U16At(bytes, at + 4) == Some(0) && U16At(bytes, at + 6) == Some(0)
    ensures U16At(bytes, at + 10) == Some(entries) && U32At(bytes, at + 16) == Some(offset)
  {
    EndParts(entries, size, offset, bytes, at);
    assert Zeros(4) == Zeros(2) + Zeros(2);
    HoldsSplit(bytes, at + 4, Zeros(2), Zeros(2));
    Le32Field(bytes, at, EOCD_SIGNATURE);
    ZeroField(bytes, at + 4, 2);
    ZeroField(bytes, at + 6, 2);
    Le16Field(bytes, at + 10, entries);
    Le32Field(bytes, at + 16, offset);
  }

  lemma LocateLast(archive: Bytes, at: nat, entries: word16, offset: word32)
    requires |archive| == at + EOCD_LEN && offset != U32_LIMIT
    requires U32At(archive, at) == Some(EOCD_SIGNATURE)
    requires U16At(archive, at + 4) == Some(0) && U16At(archive, at + 6) == Some(0)
    requires U16At(archive, at + 10) == Some(entries) && U32At(archive, at + 16) == Some(offset)
    ensures Locate(archive) == Located(entries, offset)
  {
  }

  /** An archive that ends with an end record is read through that record. */
  lemma LocateEnd(archive: Bytes, entries: word16, size: word32, offset: word32)
    requires |archive| >= EOCD_LEN && Holds(archive, |archive| - EOCD_LEN, EndOfDirectory(entries, size, offset))
    requires offset != U32_LIMIT
    ensures Locate(archive) == Located(entries, offset)
  {
    EndFields(entries, size, offset, archive, |archive| - EOCD_LEN);
    LocateLast(archive, |archive| - EOCD_LEN, entries, offset);
  }

  lemma ArchiveParts(locals: Bytes, directory: Bytes, end: Bytes)
    ensures var archive := locals + directory + end;
            && Holds(archive, 0, locals) && Holds(archive, |locals|, directory)
            && Holds(archive, |locals| + |directory|, end)
  {
  }

  lemma EndFits(entries: nat, size: nat, offset: nat)
    requires entries < 0x1_0000 && offset < U32_LIMIT
    ensures EndOf(entries, size, offset) == EndOfDirectory(entries, size % 0x1_0000_0000, offset)
  {
    assert entries % 0x1_0000 == entries && offset % 0x1_0000_0000 == offset;
  }

  /** Reading any name out of a written archive: the contents of the first
      entry of that name when they are within the limit, an error otherwise. */
  lemma RoundTrip(c: Codec, es: seq<Entry>, name: Bytes, maxBytes: nat)
    requires Lossless(c) && forall e | e in es :: Fits(c, e)
    requires |es| < 0x1_0000 && |Locals(ZipLayout(c), es)| < U32_LIMIT
    ensures Extract(c, Archive(c, es), name, maxBytes) == Wanted(es, name, maxBytes)
  {
    var archive, l := Archive(c, es), ZipLayout(c);
    var locals, directory := Locals(l, es), Directory(l, es, 0);
    var size := |directory| % 0x1_0000_0000;
    EndFits(|es|, |directory|, |locals|);
    ArchiveParts(locals, directory, EndOfDirectory(|es|, size, |locals|));
    LocateEnd(archive, |es|, size, |locals|);
    EntriesReadBack(c, es, archive, name, maxBytes);
    ScanBack(Reader(c, archive, name, maxBytes), l, es, archive, name, maxBytes, 0, |locals|);
  }
}
