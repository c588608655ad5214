/** Writing and reading the header of a perf record. */
module PerfHeaders {
  import opened MachineInt
  import opened Bytes
  import opened Outcome
  import opened PerfRecords

  datatype Header = Header(entryType: u32, misc: u16, size: u16, data: seq<u8>)

  function Low16(v: nat): u16 { v % TWO_16 }

  /**
   Appends a record, padded to the record alignment.  The size field keeps 16 bits; when they are not enough,
   the padding wraps around and so does the length the buffer is resized to, which cuts the record short.
   */
  method Write(entryType: u32, misc: u16, data: seq<u8>, output: seq<u8>) returns (r: seq<u8>)
    requires |output| + |data| + 16 < TWO_64
    ensures r == output + Record(entryType, misc, data)
  {
    var unalignedSize := |data| + 8;
    AlignIsPadding(unalignedSize);
    var size := Low16(AlignToPerfRecord(unalignedSize));
    r := output + Low(entryType, 4) + Low(misc, 2) + Low(size, 2) + data;
    ghost var body := Low(entryType, 4) + Low(misc, 2) + Low(size, 2) + data;
    assert r == output + body;
    var padding := Minus(size, unalignedSize);
    if padding > 0 {
      var length := Plus(|r|, padding);
      r := if length <= |r| then r[..length] else r + Zeros(length - |r|);
    }
  }

  /** Header and data, up to the next multiple of eight. */
  function PaddedSize(data: seq<u8>): nat { |data| + HEADER_SIZE + Padding(|data| + HEADER_SIZE) }

  /** Header and data, brought to the length the size field says: padded with zeros, or cut. */
  function Record(entryType: u32, misc: u16, data: seq<u8>): (record: seq<u8>)
    ensures |record| == Low16(PaddedSize(data))
  {
    var size := Low16(PaddedSize(data));
    var body := Low(entryType, 4) + Low(misc, 2) + Low(size, 2) + data;
    if size <= |body| then body[..size] else body + Zeros(size - |body|)
  }

  /** Reads a header; slices that are too short for one are out of bounds. */
  method FromSlice(slice: seq<u8>) returns (r: Result<Header>)
    ensures r == HeaderOf(slice)
  {
    if |slice| < 8 {
      return Err(OutOfBounds);
    }
    var entryType, misc, size := LittleEndian(slice[0..4]), LittleEndian(slice[4..6]), LittleEndian(slice[6..8]);
    r := Ok(Header(entryType, misc, size, slice[HEADER_SIZE..]));
  }

  function HeaderOf(slice: seq<u8>): Result<Header> {
    if |slice| < 8 then Err(OutOfBounds)
    else
      Ok(Header(LittleEndian(slice[0..4]), LittleEndian(slice[4..6]), LittleEndian(slice[6..8]),
                slice[HEADER_SIZE..]))
  }

  lemma {:induction false} LowIsRead(v: nat)
    ensures v < TWO_16 ==> LittleEndian(Low(v, 2)) == v
    ensures v < TWO_32 ==> LittleEndian(Low(v, 4)) == v
  {
    assert Span(2) == TWO_16 && Span(4) == TWO_32;
    if v < TWO_16 {
      LowDigits(v, 2);
    }
    if v < TWO_32 {
      LowDigits(v, 4);
    }
  }

  /**
   Reading a written record gives back its parts, its length, and the data followed by fewer than eight zeros up
   to a multiple of eight, exactly when that length fits the size field.
   */
  lemma {:induction false} ReadUndoesWriteIff(entryType: u32, misc: u16, data: seq<u8>)
    ensures var record := Record(entryType, misc, data);
      (HeaderOf(record) == Ok(Header(entryType, misc, |record|, data + Zeros(Padding(|data| + HEADER_SIZE)))))
      <==> |data| + HEADER_SIZE <= 0xFFF8
    ensures var record := Record(entryType, misc, data);
      (exists padding :: HeaderOf(record) == Ok(Header(entryType, misc, |record|, data + padding)))
      <==> |data| + HEADER_SIZE <= 0xFFF8
  {
    var record := Record(entryType, misc, data);
    assert |data| + HEADER_SIZE <= 0xFFF8 <==> PaddedSize(data) < TWO_16;
    if PaddedSize(data) < TWO_16 {
      FittingIsRead(entryType, misc, data);
    } else {
      assert |record| < |data| + 8;
      assert HeaderOf(record).Ok? ==> |HeaderOf(record).value.data| < |data|;
    }
  }

  /** Of data of 65529 bytes nothing is left: the aligned length is 65544, of which the size field keeps 8. */
  lemma {:induction false} LongRecordIsCut(entryType: u32, misc: u16, data: seq<u8>)
    requires |data| == 65529
    ensures var record := Record(entryType, misc, data);
      |record| == 8 && HeaderOf(record).Ok? && HeaderOf(record).value.data == []
  {
    assert PaddedSize(data) == 65544;
  }

  lemma {:induction false} FittingIsRead(entryType: u32, misc: u16, data: seq<u8>)
    requires PaddedSize(data) < TWO_16
    ensures var record := Record(entryType, misc, data);
      HeaderOf(record) == Ok(Header(entryType, misc, |record|, data + Zeros(Padding(|data| + HEADER_SIZE))))
  {
    var record := Record(entryType, misc, data);
    var size := PaddedSize(data);
    LowIsRead(entryType);
    LowIsRead(misc);
    LowIsRead(size);
    var zeros := Zeros(Padding(|data| + HEADER_SIZE));
    FittingIs(entryType, misc, data, size);
    HeaderFrom(Low(entryType, 4), Low(misc, 2), Low(size, 2), data, zeros, record);
  }

  lemma {:induction false} FittingIs(entryType: u32, misc: u16, data: seq<u8>, size: nat)
    requires size == PaddedSize(data) < TWO_16
    ensures Record(entryType, misc, data)
         == Low(entryType, 4) + Low(misc, 2) + Low(size, 2) + data + Zeros(Padding(|data| + HEADER_SIZE))
  {
    SmallSize(size);
    var body := Low(entryType, 4) + Low(misc, 2) + Low(size, 2) + data;
    assert |body| == |data| + HEADER_SIZE && size - |body| == Padding(|data| + HEADER_SIZE);
    if size == |body| {
      assert Padding(|data| + HEADER_SIZE) == 0 && body[..size] == body + Zeros(0);
    }
  }

  lemma {:induction false} SmallSize(size: nat)
    requires size < TWO_16
    ensures Low16(size) == size
  {
  }

  lemma {:induction false} HeaderFrom(a: seq<u8>, b: seq<u8>, c: seq<u8>, d: seq<u8>, e: seq<u8>, record: seq<u8>)
    requires |a| == 4 && |b| == |c| == 2 && record == a + b + c + d + e
    ensures HeaderOf(record) == Ok(Header(LittleEndian(a), LittleEndian(b), LittleEndian(c), d + e))
  {
    FourParts(a, b, c, d, e);
  }

  lemma {:induction false} FourParts(a: seq<u8>, b: seq<u8>, c: seq<u8>, d: seq<u8>, e: seq<u8>)
    requires |a| == 4 && |b| == |c| == 2
    ensures var whole := a + b + c + d + e;
      whole[0..4] == a && whole[4..6] == b && whole[6..8] == c && whole[8..] == d + e
  {
  }

  /** What was written is as long as its size field says and ends on the record alignment. */
  lemma {:induction false} RecordIsAligned(entryType: u32, misc: u16, data: seq<u8>)
    ensures var record := Record(entryType, misc, data);
      |record| % 8 == 0 && (|record| >= 8 ==> HeaderOf(record).value.size == |record|)
  {
    var record := Record(entryType, misc, data);
    var size := Low16(PaddedSize(data));
    LowIsRead(size);
    LowIsAligned(PaddedSize(data));
    if |record| >= 8 {
      var head := Low(entryType, 4) + Low(misc, 2) + Low(size, 2);
      assert record[..8] == head;
      SizeStands(record, Low(entryType, 4), Low(misc, 2), Low(size, 2));
    }
  }

  lemma {:induction false} LowIsAligned(n: nat)
    requires n % 8 == 0
    ensures Low16(n) % 8 == 0
  {
    var words, q := n / 8, n / TWO_16;
    assert n == 8 * words && Low16(n) == n - TWO_16 * q;
    assert Low16(n) == 8 * (words - 8192 * q);
  }

  lemma {:induction false} SizeStands(record: seq<u8>, a: seq<u8>, b: seq<u8>, c: seq<u8>)
    requires |record| >= 8 && |a| == 4 && |b| == |c| == 2 && record[..8] == a + b + c
    ensures record[6..8] == c
  {
    assert record[6..8] == record[..8][6..8];
  }
}
