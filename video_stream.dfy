/** The video file reader: a file of frames, each prefixed by its length as
    five ASCII characters. The file is its byte sequence and the reader a
    position in it, with the count of frames read so far. */
module Video {
  import opened Wrappers
  import opened Text

  const PREFIX_SIZE: nat := 5

  /** The `io::ErrorKind` of a failed `next_frame`. */
  datatype ReadError = InvalidData | UnexpectedEof

  /** `next_frame`'s result type, `io::Result<Option<Vec<u8>>>`. */
  type FrameResult = Result<Option<seq<bv8>>, ReadError>

  predicate IsAscii(b: seq<bv8>) {
    forall i :: 0 <= i < |b| ==> b[i] < 0x80
  }

  /** The characters of an ASCII byte string. */
  function AsciiChars(b: seq<bv8>): (s: string)
    requires IsAscii(b)
    ensures |s| == |b|
    ensures forall i :: 0 <= i < |b| ==> s[i] as int == b[i] as int
  {
    seq(|b|, i requires 0 <= i < |b| => (b[i] as int) as char)
  }

  /** The bytes of a string of ASCII digits. */
  function DigitBytes(s: string): (b: seq<bv8>)
    requires AllDigits(s)
    ensures |b| == |s| && IsAscii(b)
    ensures forall i :: 0 <= i < |s| ==> b[i] as int == s[i] as int
  {
    seq(|s|, i requires 0 <= i < |s| => (s[i] as int) as bv8)
  }

  /** The frame length a 5-byte prefix announces: `from_utf8` followed by
      `parse::<usize>`. A byte of 0x80 or more either is not UTF-8 or starts
      a non-ASCII character, which `parse` rejects as well, so only ASCII
      prefixes can succeed. */
  function LengthPrefix(prefix: seq<bv8>): (r: Option<nat>)
    ensures r.Some? ==> IsAscii(prefix) && ParseUnsigned(AsciiChars(prefix), USIZE_LIMIT) == r
    ensures IsAscii(prefix) ==> r == ParseUnsigned(AsciiChars(prefix), USIZE_LIMIT)
  {
    if IsAscii(prefix) then ParseUnsigned(AsciiChars(prefix), USIZE_LIMIT) else None
  }

  /** One `next_frame` on the unread bytes `rest`: its result and how many
      bytes it consumes. Fewer than five bytes is the end of the stream; a
      prefix that is not a number is `InvalidData`; a frame cut short is
      `UnexpectedEof`. A failed `read_exact` has consumed what it found. */
  function NextFrameOf(rest: seq<bv8>): (r: (FrameResult, nat))
    ensures r.1 <= |rest|
    ensures r.0 == Ok(None) <==> |rest| < PREFIX_SIZE
    ensures r.0 == Err(InvalidData) <==> |rest| >= PREFIX_SIZE && LengthPrefix(rest[..PREFIX_SIZE]).None?
    ensures r.0 == Err(UnexpectedEof) <==>
      |rest| >= PREFIX_SIZE && LengthPrefix(rest[..PREFIX_SIZE]).Some? && |rest| < PREFIX_SIZE + LengthPrefix(rest[..PREFIX_SIZE]).value
    ensures r.0.Ok? && r.0.value.Some? ==>
      && LengthPrefix(rest[..PREFIX_SIZE]) == Some(|r.0.value.value|)
      && r.1 == PREFIX_SIZE + |r.0.value.value|
      && rest[PREFIX_SIZE..r.1] == r.0.value.value
  {
    if |rest| < PREFIX_SIZE then (Ok(None), |rest|)
    else
      match LengthPrefix(rest[..PREFIX_SIZE])
      case None => (Err(InvalidData), PREFIX_SIZE)
      case Some(len) =>
        if |rest| - PREFIX_SIZE < len then (Err(UnexpectedEof), |rest|)
        else (Ok(Some(rest[PREFIX_SIZE..PREFIX_SIZE + len])), PREFIX_SIZE + len)
  }

  /** Calling `next_frame` until it stops yielding frames: the frames in
      order and the result that ended the run (`Ok(None)` or an error). */
  function ReadAll(rest: seq<bv8>): (r: (seq<seq<bv8>>, FrameResult))
    ensures r.1.Err? || r.1 == Ok(None)
    decreases |rest|
  {
    var (result, consumed) := NextFrameOf(rest);
    if result.Ok? && result.value.Some? then
      var (frames, end) := ReadAll(rest[consumed..]);
      ([result.value.value] + frames, end)
    else ([], result)
  }

  /** One `next_frame` at position `p` of `data`, ending at `q`: the frames
      still to come from `p` are its frame, if any, then those from `q`. */
  lemma ReadAllAt(data: seq<bv8>, p: nat, q: nat, r: FrameResult)
    requires p <= q <= |data| && (r, q - p) == NextFrameOf(data[p..])
    ensures r.Ok? && r.value.Some? ==> ReadAll(data[p..]).0 == [r.value.value] + ReadAll(data[q..]).0
    ensures !(r.Ok? && r.value.Some?) ==> ReadAll(data[p..]).0 == []
  {
    assert data[p..][q - p..] == data[q..];
  }

  // ------------------------------------------------------------ the reader

  class VideoStream {
    /** The file's bytes. */
    const data: seq<bv8>
    /** How many bytes the reader has consumed. */
    var pos: nat
    /** `frame_num`: frames returned so far, a `u32` that wraps. */
    var frameNum: bv32

    ghost predicate Valid()
      reads this
    {
      pos <= |data|
    }

    /** `VideoStream::new` on a file that opened: at its start, frame 0. */
    constructor (file: seq<bv8>)
      ensures Valid() && data == file && pos == 0 && frameNum == 0
    {
      data := file;
      pos := 0;
      frameNum := 0;
    }

    /** `frame_number`: the number of the last frame read, 0 before the first. */
    function FrameNumber(): bv32
      reads this
    {
      frameNum
    }

    /** `next_frame`: reads the prefix, then the frame; the frame counter moves
        on exactly when a frame is returned. */
    method NextFrame() returns (r: FrameResult)
      requires Valid()
      modifies this`pos, this`frameNum
      ensures Valid()
      ensures old(pos) <= pos && (r, pos - old(pos)) == NextFrameOf(data[old(pos)..])
      ensures frameNum == old(frameNum) + (if r.Ok? && r.value.Some? then 1 else 0)
    {
      ghost var rest := data[pos..];
      if |data| - pos < PREFIX_SIZE {
        pos := |data|;
        return Ok(None);
      }
      var lenBuf := data[pos..pos + PREFIX_SIZE];
      assert lenBuf == rest[..PREFIX_SIZE];
      pos := pos + PREFIX_SIZE;
      var frameLen;
      match LengthPrefix(lenBuf) {
        case None => return Err(InvalidData);
        case Some(n) => frameLen := n;
      }
      if |data| - pos < frameLen {
        pos := |data|;
        return Err(UnexpectedEof);
      }
      var frameData := data[pos..pos + frameLen];
      assert frameData == rest[PREFIX_SIZE..PREFIX_SIZE + frameLen];
      pos := pos + frameLen;
      frameNum := frameNum + 1;
      return Ok(Some(frameData));
    }
  }

  // ------------------------------------------------------------ the file format

  /** The largest frame a five-digit prefix can announce is 99999 bytes. */
  predicate Fits(frames: seq<seq<bv8>>) {
    forall i :: 0 <= i < |frames| ==> |frames[i]| < Pow10(PREFIX_SIZE)
  }

  /** One record of the file: the zero-padded length, then the frame. */
  function Record(frame: seq<bv8>): (b: seq<bv8>)
    ensures |b| == PREFIX_SIZE + |frame| && b[PREFIX_SIZE..] == frame
  {
    DigitBytes(PaddedDecimal(|frame|, PREFIX_SIZE)) + frame
  }

  /** A file made of the records of `frames`, in order. */
  function FileOf(frames: seq<seq<bv8>>): seq<bv8> {
    if frames == [] then [] else Record(frames[0]) + FileOf(frames[1..])
  }

  /** A zero-padded length reads back as that length. */
  lemma PrefixOfRecord(frame: seq<bv8>)
    requires |frame| < Pow10(PREFIX_SIZE)
    ensures LengthPrefix(Record(frame)[..PREFIX_SIZE]) == Some(|frame|)
  {
    var s := PaddedDecimal(|frame|, PREFIX_SIZE);
    var b := Record(frame)[..PREFIX_SIZE];
    assert b == DigitBytes(s);
    assert AsciiChars(b) == s;
    PaddedDecimalValue(|frame|, PREFIX_SIZE);
    assert IsDigit(s[0]);
    assert DecimalValue(s) < USIZE_LIMIT by {
      assert Pow10(PREFIX_SIZE) == 100000;
    }
  }

  /** One `next_frame` on a record returns its frame and consumes the record. */
  lemma NextFrameOfRecord(frame: seq<bv8>, rest: seq<bv8>)
    requires |frame| < Pow10(PREFIX_SIZE)
    ensures NextFrameOf(Record(frame) + rest) == (Ok(Some(frame)), PREFIX_SIZE + |frame|)
  {
    var data := Record(frame) + rest;
    PrefixOfRecord(frame);
    assert data[..PREFIX_SIZE] == Record(frame)[..PREFIX_SIZE];
    assert data[PREFIX_SIZE..PREFIX_SIZE + |frame|] == frame;
  }

  /** Reading a record and then whatever follows yields the record's frame
      first, then what the rest yields. */
  lemma ReadAllOfRecord(frame: seq<bv8>, rest: seq<bv8>)
    requires |frame| < Pow10(PREFIX_SIZE)
    ensures ReadAll(Record(frame) + rest) == ([frame] + ReadAll(rest).0, ReadAll(rest).1)
  {
    var file := Record(frame) + rest;
    NextFrameOfRecord(frame, rest);
    assert file[PREFIX_SIZE + |frame|..] == rest;
  }

  lemma FitsTail(frames: seq<seq<bv8>>)
    requires frames != [] && Fits(frames)
    ensures |frames[0]| < Pow10(PREFIX_SIZE) && Fits(frames[1..])
  {
    forall i | 0 <= i < |frames[1..]| ensures |frames[1..][i]| < Pow10(PREFIX_SIZE) {
      assert frames[1..][i] == frames[i + 1];
    }
  }

  /** A file of records reads back as its frames, in order, then the end of
      the stream. */
  lemma {:induction false} ReadAllFileOf(frames: seq<seq<bv8>>)
    requires Fits(frames)
    ensures ReadAll(FileOf(frames)) == (frames, Ok(None))
  {
    if frames != [] {
      var rest := FileOf(frames[1..]);
      assert FileOf(frames) == Record(frames[0]) + rest;
      FitsTail(frames);
      ReadAllFileOf(frames[1..]);
      ReadAllOfRecord(frames[0], rest);
      assert [frames[0]] + frames[1..] == frames;
    }
  }

  /** Whatever follows, a prefix that is not a plain number stops the stream
      with `InvalidData`: leading spaces are one such case. */
  lemma SpacePaddedPrefixIsInvalid(rest: seq<bv8>)
    ensures NextFrameOf([0x20, 0x20, 0x31, 0x32, 0x33] + rest).0 == Err(InvalidData)
  {
    var data: seq<bv8> := [0x20, 0x20, 0x31, 0x32, 0x33] + rest;
    assert data[..PREFIX_SIZE] == [0x20, 0x20, 0x31, 0x32, 0x33];
    assert AsciiChars(data[..PREFIX_SIZE])[0] == ' ';
  }

  /** `parse::<usize>` accepts a leading '+', so "+0003" announces a 3-byte frame. */
  lemma PlusSignedPrefixIsAccepted(frame: seq<bv8>, rest: seq<bv8>)
    requires |frame| == 3
    ensures NextFrameOf([0x2B, 0x30, 0x30, 0x30, 0x33] + frame + rest) == (Ok(Some(frame)), PREFIX_SIZE + 3)
  {
    var data: seq<bv8> := [0x2B, 0x30, 0x30, 0x30, 0x33] + frame + rest;
    var prefix := data[..PREFIX_SIZE];
    assert prefix == [0x2B, 0x30, 0x30, 0x30, 0x33];
    var s := AsciiChars(prefix);
    assert s == "+0003";
    assert s[1..] == "0003";
    assert DecimalValue("0003") == 3 by {
      assert "0003"[..3] == "000";
      assert "000"[..2] == "00";
      assert "00"[..1] == "0";
      assert "0"[..0] == "";
    }
    assert data[PREFIX_SIZE..PREFIX_SIZE + 3] == frame;
  }
}
