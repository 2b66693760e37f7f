/** The encrypted backup file: magic, salt, length-prefixed sealed chunks, end marker. */
module BackupStream {
  import opened ByteTypes
  import opened Options

  type Key = Bytes

  /** HKDF and AES-GCM as opaque functions: a key from a salt, sealing under a key and nonce, and opening,
      which fails (InvalidTag) or gives the plaintext. */
  datatype Crypto = Crypto(derive: Bytes -> Key, seal: (Key, Bytes, Bytes) -> Bytes, open: (Key, Bytes, Bytes) -> Option<Bytes>)

  // Opening undoes sealing, and the ciphertext is the plaintext and a 16-byte tag.
  ghost predicate Sound(c: Crypto) {
    forall k: Key, n: Bytes, p: Bytes :: c.open(k, n, c.seal(k, n, p)) == Some(p) && |c.seal(k, n, p)| == |p| + 16
  }

  const MAGIC: Bytes := [0x47, 0x52, 0x43, 0x42, 0x4B, 0x50, 0x02]
  const MAGIC_V1: Bytes := [0x47, 0x52, 0x43, 0x42, 0x4B, 0x50, 0x01]
  const LEGACY_SALT: Bytes := [0x62, 0x61, 0x63, 0x6B, 0x75, 0x70, 0x2D, 0x73, 0x61, 0x6C, 0x74]
  const SALT_SIZE := 16
  const LIMIT := 0x1_0000_0000

  // `struct.pack(">I", n)` and its inverse.
  function Pack(n: nat): (r: Bytes)
    requires n < LIMIT
    ensures |r| == 4
  {
    var high: int, upper: int, lower: int, low: int := n / 0x100_0000, n / 0x1_0000 % 0x100, n / 0x100 % 0x100, n % 0x100;
    [high, upper, lower, low]
  }

  function Unpack(b: Bytes): (n: nat)
    requires |b| == 4
    ensures n < LIMIT
  {
    var high: int, upper: int, lower: int, low: int := b[0], b[1], b[2], b[3];
    ((high * 0x100 + upper) * 0x100 + lower) * 0x100 + low
  }

  lemma UnpackPack(n: nat)
    requires n < LIMIT
    ensures Unpack(Pack(n)) == n
  {
    assert n / 0x1_0000 == n / 0x100_0000 * 0x100 + n / 0x1_0000 % 0x100;
    assert n / 0x100 == n / 0x1_0000 * 0x100 + n / 0x100 % 0x100;
  }

  lemma PackUnpack(b: Bytes)
    requires |b| == 4
    ensures Pack(Unpack(b)) == b
  {
    var n := Unpack(b);
    var x: int, y: int, z: int, w: int := b[0], b[1], b[2], b[3];
    assert n / 0x100 == (x * 0x100 + y) * 0x100 + z && n % 0x100 == w;
    assert n / 0x1_0000 == x * 0x100 + y;
    assert n / 0x100_0000 == x;
  }

  /*************** the format ***************/

  // Random bytes by draw; the nonces are the draws after the salt.
  ghost predicate Nonces(nonces: nat -> Bytes) { forall i :: |nonces(i)| == 12 }

  function NonEmpty(chunks: seq<Bytes>): seq<Bytes> {
    if chunks == [] then [] else
    NonEmpty(chunks[..|chunks|-1]) + if chunks[|chunks|-1] == [] then [] else [chunks[|chunks|-1]]
  }

  function Frame(nonce: Bytes, ct: Bytes): Bytes
    requires |ct| < LIMIT
  {
    nonce + Pack(|ct|) + ct
  }

  // Every chunk's ciphertext fits the length field.
  predicate Fits(c: Crypto, key: Key, chunks: seq<Bytes>, nonces: nat -> Bytes) {
    forall i | 0 <= i < |chunks| :: |c.seal(key, nonces(i), chunks[i])| < LIMIT
  }

  function Frames(c: Crypto, key: Key, chunks: seq<Bytes>, nonces: nat -> Bytes): Bytes
    requires Fits(c, key, chunks, nonces)
  {
    if chunks == [] then [] else
    var n := |chunks| - 1;
    assert forall i | 0 <= i < n :: chunks[..n][i] == chunks[i];
    Frames(c, key, chunks[..n], nonces) + Frame(nonces(n), c.seal(key, nonces(n), chunks[n]))
  }

  function EndMarker(nonce: Bytes): Bytes { nonce + Pack(0) }

  // Everything after the header, for non-empty chunks.
  function Body(c: Crypto, key: Key, chunks: seq<Bytes>, nonces: nat -> Bytes): Bytes
    requires Fits(c, key, chunks, nonces)
  {
    Frames(c, key, chunks, nonces) + EndMarker(nonces(|chunks|))
  }

  /** The file `encrypt_stream` writes. */
  function FileOf(c: Crypto, salt: Bytes, chunks: seq<Bytes>, nonces: nat -> Bytes): Bytes
    requires Fits(c, c.derive(salt), NonEmpty(chunks), nonces)
  {
    MAGIC + salt + Body(c, c.derive(salt), NonEmpty(chunks), nonces)
  }

  // A version 1 file: no salt in the header, the fixed salt for the key.
  function LegacyFileOf(c: Crypto, chunks: seq<Bytes>, nonces: nat -> Bytes): Bytes
    requires Fits(c, c.derive(LEGACY_SALT), NonEmpty(chunks), nonces)
  {
    MAGIC_V1 + Body(c, c.derive(LEGACY_SALT), NonEmpty(chunks), nonces)
  }

  /*************** reading ***************/

  datatype Ending = Complete | Truncated | NotABackup | InvalidTag
  datatype Reading = Reading(chunks: seq<Bytes>, ending: Ending)

  // The chunks yielded from the frames, and how the reader ends.
  function ReadFrames(c: Crypto, key: Key, b: Bytes): Reading
    decreases |b|
  {
    if |b| < 16 then Reading([], Truncated) else
    var length := Unpack(b[12..16]);
    if length == 0 then Reading([], Complete)
    else if |b| < 16 + length then Reading([], Truncated)
    else
      var p := c.open(key, b[..12], b[16..16 + length]);
      if p.None? then Reading([], InvalidTag) else
      var r := ReadFrames(c, key, b[16 + length..]);
      Reading([p.value] + r.chunks, r.ending)
  }

  function Read(c: Crypto, b: Bytes): Reading {
    if |b| >= 7 && b[..7] == MAGIC then
      if |b| < 7 + SALT_SIZE then Reading([], Truncated)
      else ReadFrames(c, c.derive(b[7..7 + SALT_SIZE]), b[7 + SALT_SIZE..])
    else if |b| >= 7 && b[..7] == MAGIC_V1 then ReadFrames(c, c.derive(LEGACY_SALT), b[7..])
    else Reading([], NotABackup)
  }

  /*************** the two loops ***************/

  /** Writes the file and returns its length.  A ciphertext too long for the length field raises
      (struct.error) and leaves an unfinished file. */
  method EncryptStream(c: Crypto, salt: Bytes, chunks: seq<Bytes>, nonces: nat -> Bytes)
    returns (raised: bool, out: Bytes, bytesWritten: nat)
    requires Sound(c) && Nonces(nonces) && |salt| == SALT_SIZE
    ensures raised == !Fits(c, c.derive(salt), NonEmpty(chunks), nonces)
    ensures !raised ==> out == FileOf(c, salt, chunks, nonces) && bytesWritten == |out|
  {
    hide Sound, Frames, Pack, NonEmpty, Fits;
    var key := c.derive(salt);
    out := MAGIC;
    out := out + salt;
    bytesWritten := |MAGIC| + SALT_SIZE;
    var drawn := 0;
    var i := 0;
    NothingWritten(c, key, chunks, nonces);
    assert out == MAGIC + salt + [];
    while i < |chunks|
      invariant i <= |chunks| && drawn == |NonEmpty(chunks[..i])|
      invariant Fits(c, key, NonEmpty(chunks[..i]), nonces)
      invariant out == MAGIC + salt + Frames(c, key, NonEmpty(chunks[..i]), nonces)
      invariant bytesWritten == |out|
    {
      var chunk := chunks[i];
      NonEmptyNext(chunks, i);
      if chunk != [] {
        var nonce := nonces(drawn);
        var ct := c.seal(key, nonce, chunk);
        if |ct| >= LIMIT {
          StillTooLong(c, key, chunks, nonces, i + 1);
          return true, out, bytesWritten;
        }
        FramesNext(c, key, NonEmpty(chunks[..i]), chunk, nonces);
        ghost var before := out;
        out := out + nonce;
        out := out + Pack(|ct|);
        out := out + ct;
        assert out == before + (nonce + Pack(|ct|) + ct);
        assert out == MAGIC + salt + Frames(c, key, NonEmpty(chunks[..i+1]), nonces);
        bytesWritten := bytesWritten + 12 + 4 + |ct|;
        drawn := drawn + 1;
      }
      i := i + 1;
    }
    assert chunks[..|chunks|] == chunks;
    ghost var before := out;
    out := out + nonces(drawn);
    out := out + Pack(0);
    bytesWritten := bytesWritten + 16;
    raised := false;
    assert out == before + (nonces(drawn) + Pack(0));
    assert out == FileOf(c, salt, chunks, nonces);
  }

  lemma NothingWritten(c: Crypto, key: Key, chunks: seq<Bytes>, nonces: nat -> Bytes)
    ensures NonEmpty(chunks[..0]) == [] && Fits(c, key, [], nonces) && Frames(c, key, [], nonces) == []
  {}

  lemma NonEmptyNext(chunks: seq<Bytes>, i: nat)
    requires i < |chunks|
    ensures chunks[i] == [] ==> NonEmpty(chunks[..i+1]) == NonEmpty(chunks[..i])
    ensures chunks[i] != [] ==> NonEmpty(chunks[..i+1]) == NonEmpty(chunks[..i]) + [chunks[i]]
  {
    assert chunks[..i+1][..i] == chunks[..i];
  }

  lemma FramesNext(c: Crypto, key: Key, done: seq<Bytes>, chunk: Bytes, nonces: nat -> Bytes)
    requires Fits(c, key, done, nonces) && |c.seal(key, nonces(|done|), chunk)| < LIMIT
    ensures Fits(c, key, done + [chunk], nonces)
    ensures Frames(c, key, done + [chunk], nonces) == Frames(c, key, done, nonces) + Frame(nonces(|done|), c.seal(key, nonces(|done|), chunk))
  {
    var more := done + [chunk];
    assert more[..|done|] == done && more[|done|] == chunk;
    forall k | 0 <= k < |more| ensures |c.seal(key, nonces(k), more[k])| < LIMIT { if k < |done| { assert more[k] == done[k]; } }
  }

  // The chunks of a prefix come first among all.
  lemma {:induction false} NonEmptyPrefix(chunks: seq<Bytes>, i: nat)
    requires i <= |chunks|
    ensures NonEmpty(chunks[..i]) <= NonEmpty(chunks)
    decreases |chunks| - i
  {
    if i == |chunks| {
      assert chunks[..i] == chunks;
    } else {
      NonEmptyPrefix(chunks, i + 1);
      assert chunks[..i+1][..i] == chunks[..i];
    }
  }

  lemma StillTooLong(c: Crypto, key: Key, chunks: seq<Bytes>, nonces: nat -> Bytes, i: nat)
    requires 0 < i <= |chunks| && chunks[i-1] != []
    requires |c.seal(key, nonces(|NonEmpty(chunks[..i])| - 1), chunks[i-1])| >= LIMIT
    ensures !Fits(c, key, NonEmpty(chunks), nonces)
  {
    NonEmptyPrefix(chunks, i);
    assert chunks[..i][i-1] == chunks[i-1];
    var k := |NonEmpty(chunks[..i])| - 1;
    assert NonEmpty(chunks[..i])[k] == chunks[i-1] == NonEmpty(chunks)[k];
  }

  // `src.read(n)` from a position: what is there, up to n bytes.
  function At(b: Bytes, pos: nat, n: nat): Bytes
    requires pos <= |b|
  {
    if pos + n <= |b| then b[pos..pos + n] else b[pos..]
  }

  /** The reader yields exactly the chunks of the reference reading and ends as it does. */
  method DecryptStream(c: Crypto, file: Bytes) returns (chunks: seq<Bytes>, ending: Ending)
    ensures Reading(chunks, ending) == Read(c, file)
  {
    hide ReadFrames;
    var head := At(file, 0, |MAGIC|);
    var pos := |head|;
    if head == MAGIC {
      var salt := At(file, pos, SALT_SIZE);
      pos := pos + |salt|;
      if |salt| < SALT_SIZE { return [], Truncated; }
      chunks, ending := DecryptFrames(c, c.derive(salt), file, pos);
    } else if head == MAGIC_V1 {
      chunks, ending := DecryptFrames(c, c.derive(LEGACY_SALT), file, pos);
    } else {
      return [], NotABackup;
    }
  }

  // The `while True` loop.
  method DecryptFrames(c: Crypto, key: Key, file: Bytes, start: nat) returns (chunks: seq<Bytes>, ending: Ending)
    requires start <= |file|
    ensures Reading(chunks, ending) == ReadFrames(c, key, file[start..])
  {
    hide ReadFrames, Unpack, At;
    chunks := [];
    var pos := start;
    ghost var all := ReadFrames(c, key, file[start..]);
    assert all == Before([], all);
    while true
      invariant pos <= |file|
      invariant all == Before(chunks, ReadFrames(c, key, file[pos..]))
      decreases |file| - pos
    {
      ghost var rest := file[pos..];
      ReadStep(c, key, rest);
      HeaderSlices(file, pos);
      var nonce := At(file, pos, 12);
      var lengthBuf := At(file, pos + |nonce|, 4);
      if |nonce| < 12 || |lengthBuf| < 4 { return chunks, Truncated; }
      var length := Unpack(lengthBuf);
      if length == 0 { return chunks, Complete; }
      BodySlices(file, pos, length);
      var ct := At(file, pos + 16, length);
      if |ct| < length { return chunks, Truncated; }
      var p := c.open(key, nonce, ct);
      if p.None? { return chunks, InvalidTag; }
      pos := pos + 16 + length;
      BeforeTwice(chunks, p.value, ReadFrames(c, key, file[pos..]));
      chunks := chunks + [p.value];
    }
  }

  function Before(chunks: seq<Bytes>, r: Reading): Reading { Reading(chunks + r.chunks, r.ending) }

  lemma BeforeTwice(chunks: seq<Bytes>, p: Bytes, r: Reading)
    ensures Before(chunks, Before([p], r)) == Before(chunks + [p], r)
  {
    assert chunks + ([p] + r.chunks) == (chunks + [p]) + r.chunks;
  }

  // One turn of the loop.
  lemma ReadStep(c: Crypto, key: Key, b: Bytes)
    ensures |b| < 16 ==> ReadFrames(c, key, b) == Reading([], Truncated)
    ensures |b| >= 16 && Unpack(b[12..16]) == 0 ==> ReadFrames(c, key, b) == Reading([], Complete)
    ensures |b| >= 16 && |b| < 16 + Unpack(b[12..16]) && Unpack(b[12..16]) != 0 ==> ReadFrames(c, key, b) == Reading([], Truncated)
    ensures |b| >= 16 && |b| >= 16 + Unpack(b[12..16]) && Unpack(b[12..16]) != 0 ==>
              var length := Unpack(b[12..16]);
              var p := c.open(key, b[..12], b[16..16 + length]);
              ReadFrames(c, key, b) == if p.None? then Reading([], InvalidTag) else Before([p.value], ReadFrames(c, key, b[16 + length..]))
  {}

  // The 12-byte nonce and the 4-byte length read at a position.
  lemma HeaderSlices(file: Bytes, pos: nat)
    requires pos <= |file|
    ensures var rest, nonce := file[pos..], At(file, pos, 12);
            pos + |nonce| <= |file| &&
            (if |rest| < 16 then |nonce| < 12 || |At(file, pos + |nonce|, 4)| < 4
             else nonce == rest[..12] && At(file, pos + |nonce|, 4) == rest[12..16])
  {}

  lemma BodySlices(file: Bytes, pos: nat, length: nat)
    requires pos + 16 <= |file|
    ensures var rest, ct := file[pos..], At(file, pos + 16, length);
            if |rest| < 16 + length then |ct| < length
            else ct == rest[16..16 + length] && file[pos + 16 + length..] == rest[16 + length..]
  {}

  /*************** round trip and truncation ***************/

  // Reading one whole frame, then the rest.
  lemma ReadFrame(c: Crypto, key: Key, nonce: Bytes, p: Bytes, rest: Bytes)
    requires Sound(c) && |nonce| == 12 && |c.seal(key, nonce, p)| < LIMIT
    ensures var r := ReadFrames(c, key, rest);
            ReadFrames(c, key, Frame(nonce, c.seal(key, nonce, p)) + rest) == Reading([p] + r.chunks, r.ending)
  {
    var ct := c.seal(key, nonce, p);
    var b := Frame(nonce, ct) + rest;
    assert |ct| == |p| + 16 && c.open(key, nonce, ct) == Some(p);
    assert b[12..16] == Pack(|ct|);
    UnpackPack(|ct|);
    assert b[..12] == nonce && b[16..16 + |ct|] == ct && b[16 + |ct|..] == rest;
  }

  // Reading a cut frame yields nothing.
  lemma ReadCutFrame(c: Crypto, key: Key, nonce: Bytes, p: Bytes, n: nat)
    requires Sound(c) && |nonce| == 12 && |c.seal(key, nonce, p)| < LIMIT && n < |Frame(nonce, c.seal(key, nonce, p))|
    ensures ReadFrames(c, key, Frame(nonce, c.seal(key, nonce, p))[..n]) == Reading([], Truncated)
  {
    var ct := c.seal(key, nonce, p);
    var b := Frame(nonce, ct)[..n];
    assert |ct| == |p| + 16;
    if n >= 16 {
      assert Frame(nonce, ct)[12..16] == Pack(|ct|);
      assert b[12..16] == Frame(nonce, ct)[12..16];
      UnpackPack(|ct|);
    }
  }

  lemma {:induction false} ReadFramesThen(c: Crypto, key: Key, chunks: seq<Bytes>, nonces: nat -> Bytes, rest: Bytes)
    requires Sound(c) && Nonces(nonces) && Fits(c, key, chunks, nonces)
    ensures var r := ReadFrames(c, key, rest);
            ReadFrames(c, key, Frames(c, key, chunks, nonces) + rest) == Reading(chunks + r.chunks, r.ending)
  {
    hide Sound, ReadFrames, Frame;
    if chunks == [] {
      assert [] + rest == rest;
    } else {
      var n := |chunks| - 1;
      assert forall i | 0 <= i < n :: chunks[..n][i] == chunks[i];
      var last := Frame(nonces(n), c.seal(key, nonces(n), chunks[n]));
      ReadFramesThen(c, key, chunks[..n], nonces, last + rest);
      ReadFrame(c, key, nonces(n), chunks[n], rest);
      assert Frames(c, key, chunks, nonces) + rest == Frames(c, key, chunks[..n], nonces) + (last + rest);
      var r := ReadFrames(c, key, rest);
      assert chunks == chunks[..n] + [chunks[n]];
      assert chunks[..n] + ([chunks[n]] + r.chunks) == chunks + r.chunks;
    }
  }

  lemma ReadEnd(c: Crypto, key: Key, nonce: Bytes, rest: Bytes)
    requires |nonce| == 12
    ensures ReadFrames(c, key, EndMarker(nonce) + rest) == Reading([], Complete)
  {
    var b := EndMarker(nonce) + rest;
    assert b[12..16] == Pack(0);
  }

  /** Reading back a written file gives exactly the non-empty chunks, in order, whatever follows the end
      marker; version 1 files go through the same loop. */
  lemma RoundTrip(c: Crypto, salt: Bytes, chunks: seq<Bytes>, nonces: nat -> Bytes, trailing: Bytes)
    requires Sound(c) && Nonces(nonces) && |salt| == SALT_SIZE
    ensures Fits(c, c.derive(salt), NonEmpty(chunks), nonces) ==>
              Read(c, FileOf(c, salt, chunks, nonces) + trailing) == Reading(NonEmpty(chunks), Complete)
    ensures Fits(c, c.derive(LEGACY_SALT), NonEmpty(chunks), nonces) ==>
              Read(c, LegacyFileOf(c, chunks, nonces) + trailing) == Reading(NonEmpty(chunks), Complete)
  {
    hide Sound, ReadFrames, Frames, EndMarker, NonEmpty;
    var cs := NonEmpty(chunks);
    if Fits(c, c.derive(salt), cs, nonces) {
      var file := FileOf(c, salt, chunks, nonces) + trailing;
      BodyReads(c, c.derive(salt), cs, nonces, trailing);
      assert file[..7] == MAGIC && file[7..7 + SALT_SIZE] == salt;
      assert file[7 + SALT_SIZE..] == Body(c, c.derive(salt), cs, nonces) + trailing;
    }
    if Fits(c, c.derive(LEGACY_SALT), cs, nonces) {
      var file := LegacyFileOf(c, chunks, nonces) + trailing;
      BodyReads(c, c.derive(LEGACY_SALT), cs, nonces, trailing);
      assert file[..7] == MAGIC_V1;
      assert file[6] == MAGIC_V1[6] != MAGIC[6];
      assert file[7..] == Body(c, c.derive(LEGACY_SALT), cs, nonces) + trailing;
    }
  }

  lemma BodyReads(c: Crypto, key: Key, chunks: seq<Bytes>, nonces: nat -> Bytes, trailing: Bytes)
    requires Sound(c) && Nonces(nonces) && Fits(c, key, chunks, nonces)
    ensures ReadFrames(c, key, Body(c, key, chunks, nonces) + trailing) == Reading(chunks, Complete)
  {
    hide Sound, ReadFrames, Frames, EndMarker;
    var m := EndMarker(nonces(|chunks|));
    assert Body(c, key, chunks, nonces) + trailing == Frames(c, key, chunks, nonces) + (m + trailing);
    ReadFramesThen(c, key, chunks, nonces, m + trailing);
    ReadEnd(c, key, nonces(|chunks|), trailing);
    assert chunks + [] == chunks;
  }

  // A cut body yields a prefix of the chunks and then raises.
  lemma {:induction false} CutBody(c: Crypto, key: Key, chunks: seq<Bytes>, nonces: nat -> Bytes, n: nat)
    requires Sound(c) && Nonces(nonces) && Fits(c, key, chunks, nonces) && n < |Body(c, key, chunks, nonces)|
    ensures var r := ReadFrames(c, key, Body(c, key, chunks, nonces)[..n]);
            r.ending == Truncated && r.chunks <= chunks
  {
    var m := EndMarker(nonces(|chunks|));
    var frames := Frames(c, key, chunks, nonces);
    var b := Body(c, key, chunks, nonces)[..n];
    if n >= |frames| {
      var tail := m[..n - |frames|];
      assert b == frames + tail;
      assert ReadFrames(c, key, tail) == Reading([], Truncated);
      hide Sound, ReadFrames, Frames;
      ReadFramesThen(c, key, chunks, nonces, tail);
      assert chunks + [] == chunks;
    } else {
      hide Sound, ReadFrames, Frames;
      assert b == frames[..n];
      CutFrames(c, key, chunks, nonces, n);
    }
  }

  lemma {:induction false} CutFrames(c: Crypto, key: Key, chunks: seq<Bytes>, nonces: nat -> Bytes, n: nat)
    requires Sound(c) && Nonces(nonces) && Fits(c, key, chunks, nonces) && n < |Frames(c, key, chunks, nonces)|
    ensures var r := ReadFrames(c, key, Frames(c, key, chunks, nonces)[..n]);
            r.ending == Truncated && r.chunks <= chunks
  {
    hide Sound, ReadFrames, Frame;
    var k := |chunks| - 1;
    assert chunks != [];
    assert forall i | 0 <= i < k :: chunks[..k][i] == chunks[i];
    var init, last := Frames(c, key, chunks[..k], nonces), Frame(nonces(k), c.seal(key, nonces(k), chunks[k]));
    assert Frames(c, key, chunks, nonces) == init + last;
    if n < |init| {
      CutFrames(c, key, chunks[..k], nonces, n);
      assert (init + last)[..n] == init[..n];
    } else {
      assert (init + last)[..n] == init + last[..n - |init|];
      ReadFramesThen(c, key, chunks[..k], nonces, last[..n - |init|]);
      ReadCutFrame(c, key, nonces(k), chunks[k], n - |init|);
      assert chunks[..k] + [] == chunks[..k];
    }
  }

  // A cut past the header leaves the header whole and cuts the body.
  lemma CutHeader(magic: Bytes, salt: Bytes, body: Bytes, n: nat)
    requires |magic| + |salt| <= n <= |magic| + |salt| + |body|
    ensures (magic + salt + body)[..n][|magic|..|magic| + |salt|] == salt
    ensures (magic + salt + body)[..n][|magic| + |salt|..] == body[..n - |magic| - |salt|]
  {
  }

  /** On every strict prefix of a written file the reader yields only a prefix of the chunks and then
      raises BackupError: the magic check below 7 bytes, truncation from there on. */
  lemma TruncationIsDetected(c: Crypto, salt: Bytes, chunks: seq<Bytes>, nonces: nat -> Bytes, n: nat)
    requires Sound(c) && Nonces(nonces) && |salt| == SALT_SIZE && Fits(c, c.derive(salt), NonEmpty(chunks), nonces)
    requires n < |FileOf(c, salt, chunks, nonces)|
    ensures var r := Read(c, FileOf(c, salt, chunks, nonces)[..n]);
            r.chunks <= NonEmpty(chunks) && r.ending == if n < 7 then NotABackup else Truncated
  {
    hide Sound, ReadFrames, Frames, EndMarker, NonEmpty;
    var file := FileOf(c, salt, chunks, nonces);
    var b := file[..n];
    var body := Body(c, c.derive(salt), NonEmpty(chunks), nonces);
    if n >= 7 {
      assert b[..7] == MAGIC;
      if n >= 7 + SALT_SIZE {
        CutHeader(MAGIC, salt, body, n);
        CutBody(c, c.derive(salt), NonEmpty(chunks), nonces, n - 7 - SALT_SIZE);
      }
    }
  }

  lemma LegacyTruncationIsDetected(c: Crypto, chunks: seq<Bytes>, nonces: nat -> Bytes, n: nat)
    requires Sound(c) && Nonces(nonces) && Fits(c, c.derive(LEGACY_SALT), NonEmpty(chunks), nonces)
    requires n < |LegacyFileOf(c, chunks, nonces)|
    ensures var r := Read(c, LegacyFileOf(c, chunks, nonces)[..n]);
            r.chunks <= NonEmpty(chunks) && r.ending == if n < 7 then NotABackup else Truncated
  {
    hide Sound, ReadFrames, Frames, EndMarker, NonEmpty;
    var file := LegacyFileOf(c, chunks, nonces);
    var b := file[..n];
    var body := Body(c, c.derive(LEGACY_SALT), NonEmpty(chunks), nonces);
    if n >= 7 {
      assert b[..7] == MAGIC_V1;
      assert b[6] == MAGIC_V1[6] != MAGIC[6];
      assert b[7..] == body[..n - 7];
      CutBody(c, c.derive(LEGACY_SALT), NonEmpty(chunks), nonces, n - 7);
    }
  }

  /*************** the bytes of a file ***************/

  // Four bytes, the most significant first.
  ghost predicate BigEndian(b: Bytes, n: nat) {
    |b| == 4 && n == b[0] as nat * 0x100_0000 + b[1] as nat * 0x1_0000 + b[2] as nat * 0x100 + b[3] as nat
  }

  // The letters GRCBKP and a version.
  ghost predicate IsHead(head: Bytes, version: Byte) { head == [0x47, 0x52, 0x43, 0x42, 0x4B, 0x50, version] }

  lemma PackIsBigEndian(n: nat)
    requires n < LIMIT
    ensures BigEndian(Pack(n), n)
  {
    UnpackPack(n);
  }

  /** A file with one chunk, byte by byte: GRCBKP and the version, the salt, the nonce, the length of the ciphertext with
      the most significant byte first, the ciphertext, and an end marker of a nonce and a zero length. */
  lemma Layout(c: Crypto, salt: Bytes, chunk: Bytes, nonces: nat -> Bytes)
    requires chunk != [] && |c.seal(c.derive(salt), nonces(0), chunk)| < LIMIT
    ensures Fits(c, c.derive(salt), NonEmpty([chunk]), nonces)
    ensures exists head, length ::
              IsHead(head, 2) && BigEndian(length, |c.seal(c.derive(salt), nonces(0), chunk)|) &&
              FileOf(c, salt, [chunk], nonces) ==
                head + salt + ((nonces(0) + length + c.seal(c.derive(salt), nonces(0), chunk)) + (nonces(1) + [0, 0, 0, 0]))
  {
    OneChunk(chunk);
    OneFrame(c, c.derive(salt), chunk, nonces);
    assert IsHead(MAGIC, 2);
    hide Body, BigEndian, NonEmpty;
  }

  /** A version 1 file has no salt. */
  lemma LegacyLayout(c: Crypto, chunk: Bytes, nonces: nat -> Bytes)
    requires chunk != [] && |c.seal(c.derive(LEGACY_SALT), nonces(0), chunk)| < LIMIT
    ensures Fits(c, c.derive(LEGACY_SALT), NonEmpty([chunk]), nonces)
    ensures exists head, length ::
              IsHead(head, 1) && BigEndian(length, |c.seal(c.derive(LEGACY_SALT), nonces(0), chunk)|) &&
              LegacyFileOf(c, [chunk], nonces) ==
                head + ((nonces(0) + length + c.seal(c.derive(LEGACY_SALT), nonces(0), chunk)) + (nonces(1) + [0, 0, 0, 0]))
  {
    OneChunk(chunk);
    OneFrame(c, c.derive(LEGACY_SALT), chunk, nonces);
    assert IsHead(MAGIC_V1, 1);
    hide Body, BigEndian, NonEmpty;
  }

  lemma OneChunk(chunk: Bytes)
    requires chunk != []
    ensures NonEmpty([chunk]) == [chunk]
  {
    assert [chunk][..0] == [] && NonEmpty([]) == [];
  }

  lemma OneFrame(c: Crypto, key: Key, chunk: Bytes, nonces: nat -> Bytes)
    requires |c.seal(key, nonces(0), chunk)| < LIMIT
    ensures Fits(c, key, [chunk], nonces)
    ensures exists length :: BigEndian(length, |c.seal(key, nonces(0), chunk)|) &&
              Body(c, key, [chunk], nonces) == (nonces(0) + length + c.seal(key, nonces(0), chunk)) + (nonces(1) + [0, 0, 0, 0])
  {
    var ct := c.seal(key, nonces(0), chunk);
    PackIsBigEndian(|ct|);
    PackZero();
    assert [chunk][..0] == [];
    assert Frames(c, key, [], nonces) == [];
    assert Body(c, key, [chunk], nonces) == (nonces(0) + Pack(|ct|) + ct) + (nonces(1) + [0, 0, 0, 0]);
  }

  /*************** what the reader accepts ***************/

  datatype Sealed = Sealed(nonce: Bytes, ct: Bytes)

  // Well-sized frames, each opening to its chunk.
  ghost predicate OpensTo(c: Crypto, key: Key, frames: seq<Sealed>, chunks: seq<Bytes>) {
    |frames| == |chunks| && forall i | 0 <= i < |frames| ::
      |frames[i].nonce| == 12 && 0 < |frames[i].ct| < LIMIT && c.open(key, frames[i].nonce, frames[i].ct) == Some(chunks[i])
  }

  function Laid(frames: seq<Sealed>): Bytes
    requires forall f | f in frames :: |f.ct| < LIMIT
  {
    if frames == [] then [] else Frame(frames[0].nonce, frames[0].ct) + Laid(frames[1..])
  }

  /** A reading completes only on well-formed input: frames that each open to the yielded chunk, then an
      end marker. */
  lemma {:induction false} CompleteMeansFramed(c: Crypto, key: Key, b: Bytes) returns (frames: seq<Sealed>, marker: Bytes, trailing: Bytes)
    requires ReadFrames(c, key, b).ending == Complete
    ensures OpensTo(c, key, frames, ReadFrames(c, key, b).chunks)
    ensures forall f | f in frames :: |f.ct| < LIMIT
    ensures |marker| == 12 && b == Laid(frames) + (EndMarker(marker) + trailing)
    decreases |b|
  {
    hide ReadFrames, Unpack, Pack;
    ReadStep(c, key, b);
    PackUnpack(b[12..16]);
    var length := Unpack(b[12..16]);
    if length == 0 {
      PackZero();
      frames, marker, trailing := [], b[..12], b[16..];
      assert b == [] + ((b[..12] + b[12..16]) + b[16..]);
    } else {
      var nonce, ct, rest := b[..12], b[16..16 + length], b[16 + length..];
      var fs;
      fs, marker, trailing := CompleteMeansFramed(c, key, rest);
      frames := [Sealed(nonce, ct)] + fs;
      assert frames[1..] == fs;
      assert b == Frame(nonce, ct) + rest by { assert b == b[..12] + b[12..16] + b[16..16 + length] + b[16 + length..]; }
      LaidCons(nonce, ct, fs, EndMarker(marker) + trailing);
    }
  }

  lemma PackZero()
    ensures Pack(0) == [0, 0, 0, 0] && Unpack([0, 0, 0, 0]) == 0
  {}

  lemma LaidCons(nonce: Bytes, ct: Bytes, fs: seq<Sealed>, rest: Bytes)
    requires |ct| < LIMIT && forall f | f in fs :: |f.ct| < LIMIT
    ensures forall f | f in [Sealed(nonce, ct)] + fs :: |f.ct| < LIMIT
    ensures Laid([Sealed(nonce, ct)] + fs) + rest == Frame(nonce, ct) + (Laid(fs) + rest)
  {
    assert ([Sealed(nonce, ct)] + fs)[1..] == fs;
  }

  predicate WellSized(frames: seq<Sealed>) { forall f | f in frames :: |f.nonce| == 12 && 0 < |f.ct| < LIMIT }

  predicate Opens(c: Crypto, key: Key, f: Sealed) { c.open(key, f.nonce, f.ct).Some? }

  // The plaintexts up to the first frame that does not open.
  function Plain(c: Crypto, key: Key, frames: seq<Sealed>): seq<Bytes> {
    if frames == [] || !Opens(c, key, frames[0]) then []
    else [c.open(key, frames[0].nonce, frames[0].ct).value] + Plain(c, key, frames[1..])
  }

  lemma ReadSealed(c: Crypto, key: Key, f: Sealed, rest: Bytes)
    requires |f.nonce| == 12 && 0 < |f.ct| < LIMIT
    ensures ReadFrames(c, key, Frame(f.nonce, f.ct) + rest) ==
            if Opens(c, key, f) then Before([c.open(key, f.nonce, f.ct).value], ReadFrames(c, key, rest)) else Reading([], InvalidTag)
  {
    var b := Frame(f.nonce, f.ct) + rest;
    assert Frame(f.nonce, f.ct)[12..16] == Pack(|f.ct|);
    assert b[12..16] == Frame(f.nonce, f.ct)[12..16];
    UnpackPack(|f.ct|);
    hide ReadFrames, Pack, Unpack;
    ReadStep(c, key, b);
    assert b[..12] == f.nonce && b[16..16 + |f.ct|] == f.ct && b[16 + |f.ct|..] == rest;
  }

  /** Frames laid end to end before an end marker: the reader yields the plaintexts up to the first frame that
      does not open, and completes exactly when all open. */
  lemma {:induction false} LaidReads(c: Crypto, key: Key, frames: seq<Sealed>, marker: Bytes, trailing: Bytes)
    requires WellSized(frames) && |marker| == 12
    ensures var r := ReadFrames(c, key, Laid(frames) + (EndMarker(marker) + trailing));
            r.chunks == Plain(c, key, frames) &&
            r.ending == if forall f | f in frames :: Opens(c, key, f) then Complete else InvalidTag
  {
    hide ReadFrames, Frame, EndMarker, Opens;
    var rest := EndMarker(marker) + trailing;
    if frames == [] {
      assert [] + rest == rest;
      ReadEnd(c, key, marker, trailing);
    } else {
      var f, fs := frames[0], frames[1..];
      assert frames == [f] + fs;
      assert Laid(frames) + rest == Frame(f.nonce, f.ct) + (Laid(fs) + rest);
      ReadSealed(c, key, f, Laid(fs) + rest);
      LaidReads(c, key, fs, marker, trailing);
      assert forall g :: g in frames <==> g == f || g in fs;
    }
  }

  ghost predicate Framing(c: Crypto, key: Key, b: Bytes, frames: seq<Sealed>, marker: Bytes, trailing: Bytes) {
    && WellSized(frames) && (forall f | f in frames :: Opens(c, key, f)) && |marker| == 12
    && b == Laid(frames) + (EndMarker(marker) + trailing)
  }

  /** For any bytes at all: a reading completes exactly when they are frames that each open, an end marker, and
      whatever follows it. */
  lemma CompleteIffFramed(c: Crypto, key: Key, b: Bytes)
    ensures ReadFrames(c, key, b).ending == Complete <==> exists frames, marker, trailing :: Framing(c, key, b, frames, marker, trailing)
  {
    if ReadFrames(c, key, b).ending == Complete {
      var frames, marker, trailing := CompleteMeansFramed(c, key, b);
      hide ReadFrames, Laid, EndMarker;
      forall f | f in frames ensures |f.nonce| == 12 && 0 < |f.ct| < LIMIT && Opens(c, key, f) {
        var i :| 0 <= i < |frames| && frames[i] == f;
      }
      assert Framing(c, key, b, frames, marker, trailing);
    }
    if frames, marker, trailing :| Framing(c, key, b, frames, marker, trailing) {
      hide ReadFrames, Laid, EndMarker;
      LaidReads(c, key, frames, marker, trailing);
    }
  }

  // The frames of a written file.
  function Written(c: Crypto, key: Key, chunks: seq<Bytes>, nonces: nat -> Bytes): seq<Sealed> {
    seq(|chunks|, i requires 0 <= i < |chunks| => Sealed(nonces(i), c.seal(key, nonces(i), chunks[i])))
  }

  lemma {:induction false} LaidSnoc(frames: seq<Sealed>, f: Sealed)
    requires forall g | g in frames + [f] :: |g.ct| < LIMIT
    ensures forall g | g in frames :: g in frames + [f]
    ensures f in frames + [f] && Laid(frames + [f]) == Laid(frames) + Frame(f.nonce, f.ct)
  {
    hide Frame;
    assert forall g | g in frames :: g in frames + [f];
    assert (frames + [f])[|frames|] == f;
    if frames == [] {
      assert frames + [f] == [f] && [f][1..] == [];
    } else {
      assert (frames + [f])[1..] == frames[1..] + [f];
      LaidSnoc(frames[1..], f);
    }
  }

  lemma {:induction false} WrittenLaid(c: Crypto, key: Key, chunks: seq<Bytes>, nonces: nat -> Bytes)
    requires Sound(c) && Nonces(nonces) && Fits(c, key, chunks, nonces)
    ensures WellSized(Written(c, key, chunks, nonces))
    ensures Frames(c, key, chunks, nonces) == Laid(Written(c, key, chunks, nonces))
  {
    var frames := Written(c, key, chunks, nonces);
    forall f | f in frames ensures |f.nonce| == 12 && 0 < |f.ct| < LIMIT {
      var i :| 0 <= i < |frames| && frames[i] == f;
      assert |c.seal(key, nonces(i), chunks[i])| == |chunks[i]| + 16;
    }
    if chunks != [] {
      var n := |chunks| - 1;
      assert forall i | 0 <= i < n :: chunks[..n][i] == chunks[i];
      WrittenLaid(c, key, chunks[..n], nonces);
      assert frames == Written(c, key, chunks[..n], nonces) + [frames[n]];
      hide Sound, Frame, Nonces, Fits, Laid;
      LaidSnoc(Written(c, key, chunks[..n], nonces), frames[n]);
    }
  }

  // Each yielded chunk is the plaintext of the frame in its place.
  ghost predicate Yields(frames: seq<Sealed>, written: seq<Sealed>, chunks: seq<Bytes>, r: seq<Bytes>)
    requires |written| == |chunks|
  {
    |r| == |frames| && forall i | 0 <= i < |frames| :: exists k :: 0 <= k < |written| && frames[i] == written[k] && r[i] == chunks[k]
  }

  lemma WrittenOpens(c: Crypto, key: Key, chunks: seq<Bytes>, nonces: nat -> Bytes, k: nat)
    requires Sound(c) && k < |chunks|
    ensures var f := Written(c, key, chunks, nonces)[k]; Opens(c, key, f) && c.open(key, f.nonce, f.ct).value == chunks[k]
  {}

  lemma {:induction false} PlainOfWritten(c: Crypto, key: Key, chunks: seq<Bytes>, nonces: nat -> Bytes, frames: seq<Sealed>)
    requires Sound(c) && forall f | f in frames :: f in Written(c, key, chunks, nonces)
    ensures forall f | f in frames :: Opens(c, key, f)
    ensures Yields(frames, Written(c, key, chunks, nonces), chunks, Plain(c, key, frames))
  {
    var written := Written(c, key, chunks, nonces);
    hide Written, Sound, Opens;
    assert |written| == |chunks| by { WrittenSize(c, key, chunks, nonces); }
    if frames != [] {
      var f, fs := frames[0], frames[1..];
      assert f in frames && forall g | g in fs :: g in frames;
      var k :| 0 <= k < |written| && written[k] == f;
      WrittenOpens(c, key, chunks, nonces, k);
      PlainOfWritten(c, key, chunks, nonces, fs);
      var r := Plain(c, key, frames);
      forall i | 0 <= i < |frames| ensures exists k :: 0 <= k < |written| && frames[i] == written[k] && r[i] == chunks[k] {
        if i > 0 { assert frames[i] == fs[i - 1] && r[i] == Plain(c, key, fs)[i - 1]; }
      }
      assert forall g :: g in frames <==> g == f || g in fs;
    }
  }

  lemma WrittenSize(c: Crypto, key: Key, chunks: seq<Bytes>, nonces: nat -> Bytes)
    ensures |Written(c, key, chunks, nonces)| == |chunks|
  {}

  /** Which edits of a written body the reader accepts.  Frames carry no number: put any frames end to end, none
      of them forged, that is, every one that opens under the key is a frame of the file, and mark the end.  The
      reader accepts this if and only if all of them are frames of the file, in whatever order and number, and
      then it yields their chunks in that order. */
  lemma EditAcceptedIff(c: Crypto, key: Key, chunks: seq<Bytes>, nonces: nat -> Bytes, frames: seq<Sealed>, marker: Bytes, trailing: Bytes)
    requires Sound(c) && WellSized(frames) && |marker| == 12
    requires forall f | f in frames && Opens(c, key, f) :: f in Written(c, key, chunks, nonces)
    ensures var r := ReadFrames(c, key, Laid(frames) + (EndMarker(marker) + trailing));
            && (r.ending == Complete <==> forall f | f in frames :: f in Written(c, key, chunks, nonces))
            && |Written(c, key, chunks, nonces)| == |chunks|
            && (r.ending == Complete ==> Yields(frames, Written(c, key, chunks, nonces), chunks, r.chunks))
    ensures Nonces(nonces) && Fits(c, key, chunks, nonces) ==>
              WellSized(Written(c, key, chunks, nonces)) && Frames(c, key, chunks, nonces) == Laid(Written(c, key, chunks, nonces))
  {
    if Nonces(nonces) && Fits(c, key, chunks, nonces) { WrittenLaid(c, key, chunks, nonces); }
    LaidReads(c, key, frames, marker, trailing);
    WrittenSize(c, key, chunks, nonces);
    hide Sound, ReadFrames, Laid, EndMarker, Opens, Written, Yields, Frames;
    if forall f | f in frames :: f in Written(c, key, chunks, nonces) {
      PlainOfWritten(c, key, chunks, nonces, frames);
    }
  }

  /** So a file from which the last frames were cut and the end marker kept still reads as complete. */
  lemma CutAtFrameIsAccepted(c: Crypto, key: Key, chunks: seq<Bytes>, nonces: nat -> Bytes, n: nat, marker: Bytes)
    requires Sound(c) && Nonces(nonces) && Fits(c, key, chunks, nonces) && n <= |chunks| && |marker| == 12
    ensures Fits(c, key, chunks[..n], nonces)
    ensures ReadFrames(c, key, Frames(c, key, chunks[..n], nonces) + (EndMarker(marker) + [])) == Reading(chunks[..n], Complete)
  {
    assert forall i | 0 <= i < n :: chunks[..n][i] == chunks[i];
    hide Sound, ReadFrames, Frames, EndMarker;
    ReadFramesThen(c, key, chunks[..n], nonces, EndMarker(marker) + []);
    ReadEnd(c, key, marker, []);
    assert chunks[..n] + [] == chunks[..n];
  }

  // The laws asked of the primitives can be met: sealing that appends sixteen zero bytes.
  function PlainCrypto(): Crypto {
    Crypto(s => s, (k, n, p) => p + seq(16, _ => 0), (k, n, b) => if |b| < 16 then None else Some(b[..|b| - 16]))
  }

  lemma SoundIsPossible()
    ensures Sound(PlainCrypto())
  {
    forall k: Key, n: Bytes, p: Bytes
      ensures PlainCrypto().open(k, n, PlainCrypto().seal(k, n, p)) == Some(p) && |PlainCrypto().seal(k, n, p)| == |p| + 16
    {
      assert PlainCrypto().seal(k, n, p)[..|p|] == p;
    }
  }
}
