/** Finding the samples of a WAV file. */
module WavUtils {
  import opened Bytes
  import opened AudioConfig

  const DEFAULT_WAV_HEADER_SIZE := 44
  const WAV_CHUNK_OFFSET := 12
  const WAV_CHUNK_HEADER_SIZE := 8

  const RIFF: seq<byte> := [0x52, 0x49, 0x46, 0x46]
  const WAVE: seq<byte> := [0x57, 0x41, 0x56, 0x45]
  const DATA: seq<byte> := [0x64, 0x61, 0x74, 0x61]

  // ---------------------------------------------------------------- the chunk chain

  function ChunkId(b: seq<byte>, pos: nat): seq<byte>
    requires pos + WAV_CHUNK_HEADER_SIZE <= |b|
  {
    b[pos..pos + 4]
  }

  function ChunkSize(b: seq<byte>, pos: nat): nat
    requires pos + WAV_CHUNK_HEADER_SIZE <= |b|
  {
    FromLe(b[pos + 4..pos + 8])
  }

  /** Where chunk `k` begins; a header that reaches the end of the file is no chunk. */
  function ChunkAt(b: seq<byte>, k: nat): (p: Option<nat>)
    ensures p.Some? ==> WAV_CHUNK_OFFSET <= p.value && p.value + WAV_CHUNK_HEADER_SIZE < |b|
  {
    var at := if k == 0 then Some(WAV_CHUNK_OFFSET)
              else match ChunkAt(b, k - 1)
                   case None => None
                   case Some(p) => Some(p + WAV_CHUNK_HEADER_SIZE + ChunkSize(b, p));
    if at.Some? && at.value + WAV_CHUNK_HEADER_SIZE < |b| then at else None
  }

  predicate IsDataAt(b: seq<byte>, k: nat) {
    ChunkAt(b, k).Some? && ChunkId(b, ChunkAt(b, k).value) == DATA
  }

  predicate IsFirstData(b: seq<byte>, k: nat) {
    IsDataAt(b, k) && forall j :: 0 <= j < k ==> !IsDataAt(b, j)
  }

  lemma {:induction false} ChainEnds(b: seq<byte>, k: nat, n: nat)
    requires k <= n && ChunkAt(b, k).None?
    ensures ChunkAt(b, n).None?
    decreases n
  {
    if k < n {
      ChainEnds(b, k, n - 1);
    }
  }

  /** After the first data header on the chain, or a default for what is no such file. */
  ghost predicate IsAudioOffset(b: seq<byte>, offset: nat) {
    if |b| < DEFAULT_WAV_HEADER_SIZE then offset == DEFAULT_WAV_HEADER_SIZE
    else if b[..4] != RIFF then offset == 0
    else if exists k: nat :: IsFirstData(b, k)
    then exists k: nat :: IsFirstData(b, k) && offset == ChunkAt(b, k).value + WAV_CHUNK_HEADER_SIZE
    else offset == DEFAULT_WAV_HEADER_SIZE
  }

  lemma AudioOffsetUnique(b: seq<byte>, o1: nat, o2: nat)
    requires IsAudioOffset(b, o1) && IsAudioOffset(b, o2)
    ensures o1 == o2
  {
    hide ChunkAt;
    if |b| >= DEFAULT_WAV_HEADER_SIZE && b[..4] == RIFF && exists k: nat :: IsFirstData(b, k) {
      var i: nat :| IsFirstData(b, i) && o1 == ChunkAt(b, i).value + WAV_CHUNK_HEADER_SIZE;
      var j: nat :| IsFirstData(b, j) && o2 == ChunkAt(b, j).value + WAV_CHUNK_HEADER_SIZE;
      FirstDataIsUnique(b, i, j);
    }
  }

  method GetAudioDataOffset(buffer: seq<byte>) returns (offset: nat)
    ensures IsAudioOffset(buffer, offset)
  {
    if |buffer| < DEFAULT_WAV_HEADER_SIZE {
      return DEFAULT_WAV_HEADER_SIZE;
    }
    if buffer[..4] != RIFF {
      return 0;
    }
    var pos := WAV_CHUNK_OFFSET;
    ghost var k := 0;
    while pos + WAV_CHUNK_HEADER_SIZE < |buffer|
      invariant ChunkAt(buffer, k) == if pos + WAV_CHUNK_HEADER_SIZE < |buffer| then Some(pos) else None
      invariant forall j :: 0 <= j < k ==> !IsDataAt(buffer, j)
      decreases |buffer| - pos
    {
      var chunkSize := ChunkSize(buffer, pos);
      if ChunkId(buffer, pos) == DATA {
        assert IsFirstData(buffer, k);
        return pos + WAV_CHUNK_HEADER_SIZE;
      }
      var nextPos := pos + WAV_CHUNK_HEADER_SIZE + chunkSize;
      k := k + 1;
      if nextPos > |buffer| || nextPos < pos {
        NoDataLater(buffer, k);
        return DEFAULT_WAV_HEADER_SIZE;
      }
      pos := nextPos;
    }
    NoDataLater(buffer, k);
    return DEFAULT_WAV_HEADER_SIZE;
  }

  lemma NoDataLater(b: seq<byte>, k: nat)
    requires ChunkAt(b, k).None? && forall j :: 0 <= j < k ==> !IsDataAt(b, j)
    ensures forall n: nat :: !IsFirstData(b, n)
  {
    forall n: nat
      ensures !IsDataAt(b, n)
    {
      if n >= k {
        ChainEnds(b, k, n);
      }
    }
  }

  // ---------------------------------------------------------------- written files

  datatype Chunk = Chunk(id: seq<byte>, body: seq<byte>)

  predicate ValidChunk(c: Chunk) {
    |c.id| == 4 && c.id != DATA && |c.body| < Pow256(4)
  }

  function Written(c: Chunk): seq<byte> {
    c.id + ToLe(|c.body|, 4) + c.body
  }

  function AllWritten(cs: seq<Chunk>): seq<byte> {
    if cs == [] then [] else AllWritten(cs[..|cs| - 1]) + Written(cs[|cs| - 1])
  }

  /** A file whose chunks follow one another without padding, the samples last. */
  function WaveFile(riffSize: seq<byte>, cs: seq<Chunk>, audio: seq<byte>): seq<byte> {
    Lead(riffSize, cs) + Written(Chunk(DATA, audio))
  }

  function Lead(riffSize: seq<byte>, cs: seq<Chunk>): (s: seq<byte>)
    ensures |riffSize| == 4 ==> |s| == WAV_CHUNK_OFFSET + |AllWritten(cs)|
  {
    RIFF + riffSize + WAVE + AllWritten(cs)
  }

  lemma {:induction false} SplitWritten(cs: seq<Chunk>, k: nat)
    requires k < |cs|
    ensures exists rest :: AllWritten(cs) == AllWritten(cs[..k]) + Written(cs[k]) + rest
    decreases |cs|
  {
    var m := |cs| - 1;
    if k == m {
      assert AllWritten(cs) == AllWritten(cs[..k]) + Written(cs[k]) + [];
    } else {
      SplitWritten(cs[..m], k);
      assert cs[..m][..k] == cs[..k];
      var rest :| AllWritten(cs[..m]) == AllWritten(cs[..k]) + Written(cs[k]) + rest;
      assert AllWritten(cs) == AllWritten(cs[..k]) + Written(cs[k]) + (rest + Written(cs[m]));
    }
  }

  /** A chunk that was written is read back where it stands. */
  lemma ReadHeader(before: seq<byte>, c: Chunk, rest: seq<byte>)
    requires |c.id| == 4 && |c.body| < Pow256(4)
    ensures var b := before + Written(c) + rest;
            ChunkId(b, |before|) == c.id && ChunkSize(b, |before|) == |c.body|
  {
    var b := before + Written(c) + rest;
    FromToLe(|c.body|, 4);
    assert b[|before|..|before| + 4] == c.id;
    assert b[|before| + 4..|before| + 8] == ToLe(|c.body|, 4);
  }

  /** What precedes chunk `k`, the chunk, and what follows it. */
  lemma SplitLead(riffSize: seq<byte>, cs: seq<Chunk>, last: seq<byte>, k: nat)
    requires k < |cs|
    ensures exists rest :: |rest| >= |last| && Lead(riffSize, cs) + last == Lead(riffSize, cs[..k]) + Written(cs[k]) + rest
  {
    SplitWritten(cs, k);
    var rest :| AllWritten(cs) == AllWritten(cs[..k]) + Written(cs[k]) + rest;
    hide AllWritten, Written;
    var header, before, c := RIFF + riffSize + WAVE, AllWritten(cs[..k]), Written(cs[k]);
    Regrouped(header, before, c, rest, last);
  }

  lemma Regrouped(header: seq<byte>, before: seq<byte>, c: seq<byte>, rest: seq<byte>, last: seq<byte>)
    ensures header + (before + c + rest) + last == header + before + c + (rest + last)
  {
  }

  lemma WrittenLength(c: Chunk)
    ensures |Written(c)| == |c.id| + 4 + |c.body|
  {
  }

  lemma ChunkOfLead(riffSize: seq<byte>, cs: seq<Chunk>, last: seq<byte>, k: nat)
    requires |riffSize| == 4 && k < |cs| && ValidChunk(cs[k]) && |last| > 0
    ensures var b, p := Lead(riffSize, cs) + last, |Lead(riffSize, cs[..k])|;
            && p + WAV_CHUNK_HEADER_SIZE < |b|
            && ChunkId(b, p) == cs[k].id && ChunkSize(b, p) == |cs[k].body|
  {
    hide Lead, Written, ChunkId, ChunkSize;
    SplitLead(riffSize, cs, last, k);
    var rest :| |rest| >= |last| && Lead(riffSize, cs) + last == Lead(riffSize, cs[..k]) + Written(cs[k]) + rest;
    WrittenLength(cs[k]);
    ReadHeader(Lead(riffSize, cs[..k]), cs[k], rest);
  }

  lemma LeadNext(riffSize: seq<byte>, cs: seq<Chunk>, k: nat)
    requires |riffSize| == 4 && k < |cs| && |cs[k].id| == 4
    ensures |Lead(riffSize, cs[..k + 1])| == |Lead(riffSize, cs[..k])| + WAV_CHUNK_HEADER_SIZE + |cs[k].body|
  {
    assert cs[..k + 1][..k] == cs[..k];
  }

  /** The search walks over the chunks that were written and looks next at what follows them. */
  lemma {:induction false} ChainOfLead(riffSize: seq<byte>, cs: seq<Chunk>, last: seq<byte>, k: nat)
    requires |riffSize| == 4 && |last| > WAV_CHUNK_HEADER_SIZE && k <= |cs| && forall c :: c in cs ==> ValidChunk(c)
    ensures ChunkAt(Lead(riffSize, cs) + last, k) == Some(|Lead(riffSize, cs[..k])|)
    ensures k < |cs| ==> !IsDataAt(Lead(riffSize, cs) + last, k)
    decreases k
  {
    hide ChunkId, ChunkSize, ValidChunk;
    if k < |cs| {
      assert ValidChunk(cs[k]);
      ChunkOfLead(riffSize, cs, last, k);
      IdOfValid(cs[k]);
    } else {
      assert cs[..k] == cs;
    }
    if k == 0 {
      LeadStart(riffSize, cs);
    } else {
      ChainOfLead(riffSize, cs, last, k - 1);
      assert ValidChunk(cs[k - 1]);
      ChunkOfLead(riffSize, cs, last, k - 1);
      IdOfValid(cs[k - 1]);
      LeadNext(riffSize, cs, k - 1);
    }
  }

  lemma IdOfValid(c: Chunk)
    requires ValidChunk(c)
    ensures |c.id| == 4 && c.id != DATA
  {
  }

  lemma LeadStart(riffSize: seq<byte>, cs: seq<Chunk>)
    requires |riffSize| == 4
    ensures |Lead(riffSize, cs[..0])| == WAV_CHUNK_OFFSET
  {
  }

  lemma DataOfFile(riffSize: seq<byte>, cs: seq<Chunk>, audio: seq<byte>)
    requires |riffSize| == 4 && |audio| < Pow256(4)
    ensures var b, p := WaveFile(riffSize, cs, audio), |Lead(riffSize, cs)|;
            && p + WAV_CHUNK_HEADER_SIZE + |audio| == |b| && ChunkId(b, p) == DATA
            && b[p + WAV_CHUNK_HEADER_SIZE..] == audio
  {
    hide Lead, ChunkId, ChunkSize, ToLe;
    var before, last := Lead(riffSize, cs), Chunk(DATA, audio);
    assert WaveFile(riffSize, cs, audio) == before + Written(last) + [];
    ReadHeader(before, last, []);
  }

  lemma ChainOfFile(riffSize: seq<byte>, cs: seq<Chunk>, audio: seq<byte>, k: nat)
    requires |riffSize| == 4 && 0 < |audio| < Pow256(4) && k <= |cs| && forall c :: c in cs ==> ValidChunk(c)
    ensures ChunkAt(WaveFile(riffSize, cs, audio), k) == Some(|Lead(riffSize, cs[..k])|)
    ensures k < |cs| ==> !IsDataAt(WaveFile(riffSize, cs, audio), k)
  {
    hide Written, ChunkAt, IsDataAt, Lead;
    WrittenLength(Chunk(DATA, audio));
    ChainOfLead(riffSize, cs, Written(Chunk(DATA, audio)), k);
  }

  /** The audio of a written file is found, whatever chunks precede it. */
  lemma FindsTheAudio(riffSize: seq<byte>, cs: seq<Chunk>, audio: seq<byte>)
    requires |riffSize| == 4 && 0 < |audio| < Pow256(4) && forall c :: c in cs ==> ValidChunk(c)
    ensures var b := WaveFile(riffSize, cs, audio);
            && IsFirstData(b, |cs|)
            && ChunkAt(b, |cs|).value == |Lead(riffSize, cs)|
            && b[ChunkAt(b, |cs|).value + WAV_CHUNK_HEADER_SIZE..] == audio
  {
    hide WaveFile, Lead, ChunkAt, ChunkId, ValidChunk;
    DataOfFile(riffSize, cs, audio);
    ChainOfFile(riffSize, cs, audio, |cs|);
    assert cs[..|cs|] == cs;
    hide IsDataAt;
    forall k | 0 <= k < |cs|
      ensures !IsDataAt(WaveFile(riffSize, cs, audio), k)
    {
      ChainOfFile(riffSize, cs, audio, k);
    }
  }

  lemma FirstDataIsUnique(b: seq<byte>, i: nat, j: nat)
    requires IsFirstData(b, i) && IsFirstData(b, j)
    ensures i == j
  {
  }

  // ---------------------------------------------------------------- opening a file

  const HEADER_BUF_SIZE := 256

  /** Only the first bytes of the file are searched; the frames are the whole ones after the offset. */
  method Open(file: seq<byte>) returns (offset: nat, totalFrames: nat)
    ensures file == [] ==> offset == 0 && totalFrames == 0
    ensures file != [] ==> IsAudioOffset(Front(file), offset)
    ensures totalFrames * FRAME_SIZE_BYTES <= (if |file| > offset then |file| - offset else 0) < (totalFrames + 1) * FRAME_SIZE_BYTES
  {
    hide IsAudioOffset;
    var headerBuf := Front(file);
    offset := 0;
    if |headerBuf| > 0 {
      offset := GetAudioDataOffset(headerBuf);
    }
    totalFrames := (if |file| > offset then |file| - offset else 0) / FRAME_SIZE_BYTES;
  }

  function Front(file: seq<byte>): (f: seq<byte>) {
    if |file| < HEADER_BUF_SIZE then file else file[..HEADER_BUF_SIZE]
  }

  lemma {:induction false} EarlierChunks(b: seq<byte>, j: nat, k: nat)
    requires j <= k && ChunkAt(b, k).Some?
    ensures ChunkAt(b, j).Some? && ChunkAt(b, j).value <= ChunkAt(b, k).value
    decreases k
  {
    if j < k {
      EarlierChunks(b, j, k - 1);
    }
  }

  /** The part of the chain that lies in a prefix is the chain of the prefix. */
  lemma {:induction false} ChainOfPrefix(b: seq<byte>, n: nat, k: nat)
    requires n <= |b| && ChunkAt(b, k).Some? && ChunkAt(b, k).value + WAV_CHUNK_HEADER_SIZE < n
    ensures ChunkAt(b[..n], k) == ChunkAt(b, k)
    ensures IsDataAt(b[..n], k) <==> IsDataAt(b, k)
  {
    hide ChunkId, ChunkSize;
    SameHeader(b, n, ChunkAt(b, k).value);
    if k != 0 {
      EarlierChunks(b, k - 1, k);
      ChainOfPrefix(b, n, k - 1);
      SameHeader(b, n, ChunkAt(b, k - 1).value);
    }
  }

  lemma SameHeader(b: seq<byte>, n: nat, p: nat)
    requires p + WAV_CHUNK_HEADER_SIZE <= n <= |b|
    ensures ChunkId(b[..n], p) == ChunkId(b, p) && ChunkSize(b[..n], p) == ChunkSize(b, p)
  {
    assert b[..n][p..p + 4] == b[p..p + 4];
    assert b[..n][p + 4..p + 8] == b[p + 4..p + 8];
  }

  lemma FirstDataOfPrefix(b: seq<byte>, n: nat, k: nat)
    requires n <= |b| && IsFirstData(b, k) && ChunkAt(b, k).value + WAV_CHUNK_HEADER_SIZE < n
    ensures IsFirstData(b[..n], k) && ChunkAt(b[..n], k) == ChunkAt(b, k)
  {
    hide ChunkAt;
    ChainOfPrefix(b, n, k);
    forall j | 0 <= j < k
      ensures !IsDataAt(b[..n], j)
    {
      EarlierChunks(b, j, k);
      ChainOfPrefix(b, n, j);
    }
  }

  /** And the chain of a prefix is nothing else. */
  lemma {:induction false} PrefixOfChain(b: seq<byte>, n: nat, k: nat)
    requires n <= |b| && ChunkAt(b[..n], k).Some?
    ensures ChunkAt(b, k) == ChunkAt(b[..n], k)
    ensures IsDataAt(b[..n], k) <==> IsDataAt(b, k)
  {
    hide ChunkId, ChunkSize;
    SameHeader(b, n, ChunkAt(b[..n], k).value);
    if k != 0 {
      PrefixOfChain(b, n, k - 1);
      SameHeader(b, n, ChunkAt(b[..n], k - 1).value);
    }
  }

  /** A header that does not lie in the prefix with a byte to spare is not on its chain. */
  lemma NoDataInPrefix(riffSize: seq<byte>, cs: seq<Chunk>, audio: seq<byte>, n: nat)
    requires |riffSize| == 4 && 0 < |audio| < Pow256(4) && forall c :: c in cs ==> ValidChunk(c)
    requires n <= |WaveFile(riffSize, cs, audio)| && n <= |Lead(riffSize, cs)| + WAV_CHUNK_HEADER_SIZE
    ensures forall k: nat :: !IsFirstData(WaveFile(riffSize, cs, audio)[..n], k)
  {
    hide WaveFile, Lead, ValidChunk, ChunkAt;
    var b := WaveFile(riffSize, cs, audio);
    ChainOfFile(riffSize, cs, audio, |cs|);
    assert cs[..|cs|] == cs;
    forall k: nat
      ensures !IsDataAt(b[..n], k)
    {
      if ChunkAt(b[..n], k).Some? {
        PrefixOfChain(b, n, k);
        if k < |cs| {
          ChainOfFile(riffSize, cs, audio, k);
        } else {
          EarlierChunks(b, |cs|, k);
        }
      }
    }
  }

  /**
   * A written file is played from its first sample if and only if it is no shorter than a default
   * header and its data header lies in the part that is searched, with a byte to spare.
   */
  lemma OpensAtTheAudioIff(riffSize: seq<byte>, cs: seq<Chunk>, audio: seq<byte>, offset: nat)
    requires |riffSize| == 4 && 0 < |audio| < Pow256(4) && forall c :: c in cs ==> ValidChunk(c)
    requires IsAudioOffset(Front(WaveFile(riffSize, cs, audio)), offset)
    ensures var file := WaveFile(riffSize, cs, audio);
            && (offset + |audio| == |file| <==>
                  |file| >= 44 && |Lead(riffSize, cs)| + 8 < 256)
            && (offset + |audio| == |file| ==> file[offset..] == audio)
  {
    hide WaveFile, ChunkAt, IsDataAt, IsFirstData, ValidChunk, Lead;
    var b, k := WaveFile(riffSize, cs, audio), |cs|;
    FindsTheAudio(riffSize, cs, audio);
    DataOfFile(riffSize, cs, audio);
    var n := |Front(b)|;
    assert Front(b) == b[..n];
    if |b| >= DEFAULT_WAV_HEADER_SIZE {
      StartsWithRiff(riffSize, cs, audio, n);
      if |Lead(riffSize, cs)| + WAV_CHUNK_HEADER_SIZE < HEADER_BUF_SIZE {
        FirstDataOfPrefix(b, n, k);
        AudioOffsetUnique(Front(b), offset, |b| - |audio|);
      } else {
        NoDataInPrefix(riffSize, cs, audio, n);
      }
    }
  }

  lemma StartsWithRiff(riffSize: seq<byte>, cs: seq<Chunk>, audio: seq<byte>, n: nat)
    requires 4 <= n <= |WaveFile(riffSize, cs, audio)|
    ensures WaveFile(riffSize, cs, audio)[..n][..4] == RIFF
  {
    hide AllWritten, Written;
  }

  // ---------------------------------------------------------------- padding

  /** RIFF pads a chunk of odd size with a byte that its size does not count. */
  function Padding(cs: seq<Chunk>): (pad: seq<byte>)
    ensures |pad| <= 1
  {
    if cs != [] && |cs[|cs| - 1].body| % 2 == 1 then [0] else []
  }

  /** A file with the padding of the chunk before the data chunk. */
  function PaddedFile(riffSize: seq<byte>, cs: seq<Chunk>, audio: seq<byte>): (b: seq<byte>)
    ensures |riffSize| == 4 ==> |b| == |Lead(riffSize, cs)| + |Padding(cs)| + WAV_CHUNK_HEADER_SIZE + |audio|
  {
    Lead(riffSize, cs) + (Padding(cs) + Written(Chunk(DATA, audio)))
  }

  /** The data chunk of the file is the one that the search stops at. */
  ghost predicate FindsData(riffSize: seq<byte>, cs: seq<Chunk>, audio: seq<byte>) {
    exists k: nat :: StopsAtData(riffSize, cs, audio, k)
  }

  ghost predicate StopsAtData(riffSize: seq<byte>, cs: seq<Chunk>, audio: seq<byte>, k: nat) {
    var b := PaddedFile(riffSize, cs, audio);
    IsFirstData(b, k) && ChunkAt(b, k) == Some(|Lead(riffSize, cs)| + |Padding(cs)|)
  }

  /**
   * The search finds the data chunk if and only if the chunk before it needs no padding: the byte
   * that pads a chunk of odd size is taken for the beginning of the next one.
   */
  lemma FindsDataIffUnpadded(riffSize: seq<byte>, cs: seq<Chunk>, audio: seq<byte>)
    requires |riffSize| == 4 && 0 < |audio| < Pow256(4) && forall c :: c in cs ==> ValidChunk(c)
    ensures FindsData(riffSize, cs, audio) <==> (cs == [] || |cs[|cs| - 1].body| % 2 == 0)
  {
    hide ChunkAt, Lead, Written, ValidChunk;
    var b := PaddedFile(riffSize, cs, audio);
    if Padding(cs) == [] {
      FindsTheAudio(riffSize, cs, audio);
      assert [] + Written(Chunk(DATA, audio)) == Written(Chunk(DATA, audio));
      assert b == WaveFile(riffSize, cs, audio);
      assert StopsAtData(riffSize, cs, audio, |cs|);
    } else {
      forall k: nat
        ensures !StopsAtData(riffSize, cs, audio, k)
      {
        SkipsTheData(riffSize, cs, audio, k);
      }
    }
  }

  /** Behind a padding byte the chain jumps over the data header. */
  lemma SkipsTheData(riffSize: seq<byte>, cs: seq<Chunk>, audio: seq<byte>, k: nat)
    requires |riffSize| == 4 && |audio| > 0 && Padding(cs) == [0] && forall c :: c in cs ==> ValidChunk(c)
    ensures ChunkAt(PaddedFile(riffSize, cs, audio), k) != Some(|Lead(riffSize, cs)| + 1)
  {
    hide Lead, Written, ValidChunk;
    var last := [0] + Written(Chunk(DATA, audio));
    var b, p := PaddedFile(riffSize, cs, audio), |Lead(riffSize, cs)|;
    WrittenLength(Chunk(DATA, audio));
    ChainOfLead(riffSize, cs, last, |cs|);
    assert cs[..|cs|] == cs;
    hide Padding, PaddedFile;
    if ChunkAt(b, k) == Some(p + 1) {
      if k <= |cs| {
        hide ChunkAt;
        EarlierChunks(b, k, |cs|);
      } else {
        EarlierChunks(b, |cs| + 1, k);
      }
    }
  }

  /** What the search returns for such a file: the right place only without padding, or by luck. */
  lemma OffsetIffUnpadded(riffSize: seq<byte>, cs: seq<Chunk>, audio: seq<byte>, offset: nat)
    requires |riffSize| == 4 && 0 < |audio| < 0x100_0000 && forall c :: c in cs ==> ValidChunk(c)
    requires |PaddedFile(riffSize, cs, audio)| >= DEFAULT_WAV_HEADER_SIZE
    requires IsAudioOffset(PaddedFile(riffSize, cs, audio), offset)
    ensures offset + |audio| == |PaddedFile(riffSize, cs, audio)|
            <==> Padding(cs) == [] || |Lead(riffSize, cs)| + 1 + WAV_CHUNK_HEADER_SIZE == DEFAULT_WAV_HEADER_SIZE
  {
    hide IsFirstData, ChunkAt, Written, ValidChunk;
    var b, p := PaddedFile(riffSize, cs, audio), |Lead(riffSize, cs)|;
    LeadIsRiff(riffSize, cs, Padding(cs) + Written(Chunk(DATA, audio)));
    hide Lead;
    if Padding(cs) == [] {
      FindsTheAudio(riffSize, cs, audio);
      assert [] + Written(Chunk(DATA, audio)) == Written(Chunk(DATA, audio));
      AudioOffsetUnique(b, offset, p + WAV_CHUNK_HEADER_SIZE);
    } else {
      PaddingMisleads(riffSize, cs, audio);
    }
  }

  lemma LeadIsRiff(riffSize: seq<byte>, cs: seq<Chunk>, last: seq<byte>)
    ensures (Lead(riffSize, cs) + last)[..4] == RIFF
  {
    hide AllWritten;
  }

  /** In a file of up to 16 MB no data chunk is found behind a padding byte. */
  lemma PaddingMisleads(riffSize: seq<byte>, cs: seq<Chunk>, audio: seq<byte>)
    requires |riffSize| == 4 && 0 < |audio| < 0x100_0000 && Padding(cs) == [0] && forall c :: c in cs ==> ValidChunk(c)
    ensures forall k: nat :: !IsFirstData(PaddedFile(riffSize, cs, audio), k)
  {
    hide ValidChunk, IsFirstData, Lead, Written, ChunkAt;
    var b, p, m := PaddedFile(riffSize, cs, audio), |Lead(riffSize, cs)|, |cs|;
    var last := [0] + Written(Chunk(DATA, audio));
    WrittenLength(Chunk(DATA, audio));
    ChainOfLead(riffSize, cs, last, m);
    assert cs[..m] == cs;
    MisreadHeader(Lead(riffSize, cs), audio);
    ChainIsCut(b, m, p, |audio|);
    forall j | 0 <= j < m
      ensures !IsDataAt(b, j)
    {
      ChainOfLead(riffSize, cs, last, j);
    }
    NoDataLater(b, m + 1);
  }

  lemma MisreadHeader(before: seq<byte>, audio: seq<byte>)
    requires 0 < |audio| < 0x100_0000
    ensures var b := before + ([0] + Written(Chunk(DATA, audio)));
            ChunkId(b, |before|) != DATA && ChunkSize(b, |before|) == 97 + 256 * |audio|
  {
    hide ToLe, FromLe;
    var b, p, size := before + ([0] + Written(Chunk(DATA, audio))), |before|, ToLe(|audio|, 4);
    assert b[p..p + 4][0] == 0;
    assert b[p + 4..p + 8] == [DATA[3]] + size[..3];
    MisreadSize(|audio|);
  }

  lemma ChainIsCut(b: seq<byte>, m: nat, p: nat, n: nat)
    requires ChunkAt(b, m) == Some(p) && |b| == p + 9 + n
    requires ChunkId(b, p) != DATA && ChunkSize(b, p) == 97 + 256 * n
    ensures ChunkAt(b, m + 1) == None && !IsDataAt(b, m)
  {
    hide ChunkId, ChunkSize;
  }

  lemma MisreadSize(n: nat)
    requires n < 0x100_0000
    ensures FromLe([DATA[3]] + ToLe(n, 4)[..3]) == 97 + 256 * n
  {
    LowBytes(n, 3);
    Pow256Next(1);
    FromToLe(n, 3);
    FromLeAppend([DATA[3]], ToLe(n, 3));
  }

  lemma {:induction false} LowBytes(n: nat, k: nat)
    ensures ToLe(n, k + 1)[..k] == ToLe(n, k)
  {
    if k != 0 {
      LowBytes(n / 256, k - 1);
    }
  }
}
