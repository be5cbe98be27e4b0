/** Recognising a file by its content: a cheap fingerprint, and the torrent's own piece hashes. Bytes are characters. */
module ContentId {
  import opened Options
  import opened Strconv

  type Bytes = string

  const PIECE_HASH_LEN := 20
  const SAMPLE_BYTES := 65536

  /** Integer division as Go does it, toward zero. */
  function Quot(a: int, b: int): int
    requires b > 0
  {
    if a >= 0 then a / b else -(-a / b)
  }

  /** What a read of `len` bytes at `off` yields: no more than that many, whatever error comes with them. */
  type ReaderAt = (int, int) -> Bytes

  /** A read that must fill the whole buffer. */
  function ReadAtFull(ra: ReaderAt, len: nat, off: int): Option<Bytes> {
    if |ra(off, len)| == len then Some(ra(off, len)) else None
  }

  /** The reader of a file's bytes: short only at the end of the file. */
  ghost predicate Reads(ra: ReaderAt, data: Bytes) {
    forall off: nat, len: nat :: ra(off, len) ==
      if off + len <= |data| then data[off..off + len] else if off <= |data| then data[off..] else []
  }

  // ---- The piece grid ----

  datatype PieceCheck = PieceCheck(pieceLen: int, fileStart: int, fileLen: int, pieceHashes: seq<Bytes>)

  /** The first and the last piece inside the file, if there is one. */
  function InteriorPieces(pc: PieceCheck): Option<(int, int)> {
    if pc.pieceLen <= 0 || pc.fileLen < pc.pieceLen then None
    else
      var end := pc.fileStart + pc.fileLen;
      var first := Quot(pc.fileStart + pc.pieceLen - 1, pc.pieceLen);
      var last := Quot(end, pc.pieceLen) - 1;
      if last < first then None else Some((first, last))
  }

  ghost predicate Inside(pc: PieceCheck, i: int) {
    pc.fileStart <= i * pc.pieceLen && (i + 1) * pc.pieceLen <= pc.fileStart + pc.fileLen
  }

  /** Where piece `i` starts in the file. */
  function Offset(pc: PieceCheck, i: int): int {
    i * pc.pieceLen - pc.fileStart
  }

  lemma MulMono(a: int, b: int, c: nat)
    requires a <= b
    ensures a * c <= b * c
  {
  }

  lemma DivBounds(a: nat, n: int)
    requires n > 0
    ensures (a / n) * n <= a < (a / n + 1) * n
  {
  }

  lemma InsideRange(start: int, end: int, n: nat, first: int, next: int, i: int)
    requires (first - 1) * n < start <= first * n && next * n <= end < (next + 1) * n
    ensures start <= i * n && (i + 1) * n <= end <==> first <= i < next
  {
    if i < first {
      MulMono(i, first - 1, n);
    } else {
      MulMono(first, i, n);
    }
    if i < next {
      MulMono(i + 1, next, n);
    } else {
      MulMono(next + 1, i + 1, n);
    }
  }

  /** The pieces found are exactly those inside the file, and less than a piece is left uncovered at each end. */
  lemma InteriorExact(pc: PieceCheck)
    requires pc.pieceLen > 0 && pc.fileStart >= 0
    ensures var r := InteriorPieces(pc);
      && (forall i :: Inside(pc, i) <==> r.Some? && r.value.0 <= i <= r.value.1)
      && (r.Some? ==> 0 <= r.value.0 && 0 <= Offset(pc, r.value.0) < pc.pieceLen
                      && 0 <= pc.fileLen - Offset(pc, r.value.1 + 1) < pc.pieceLen)
  {
    var n, end := pc.pieceLen, pc.fileStart + pc.fileLen;
    if pc.fileLen < n {
      forall i ensures !Inside(pc, i) {
        assert (i + 1) * n == i * n + n;
      }
    } else {
      var first, next := (pc.fileStart + n - 1) / n, end / n;
      DivBounds(pc.fileStart + n - 1, n);
      DivBounds(end, n);
      assert (first + 1) * n == first * n + n && (next + 1) * n == next * n + n;
      forall i ensures Inside(pc, i) <==> first <= i <= next - 1 {
        InsideRange(pc.fileStart, end, n, first, next, i);
      }
    }
  }

  // ---- Verification ----

  ghost predicate HashPresent(pc: PieceCheck, i: int) {
    0 <= i < |pc.pieceHashes| && |pc.pieceHashes[i]| == PIECE_HASH_LEN
  }

  ghost predicate Checkable(ra: ReaderAt, pc: PieceCheck, i: int)
    requires pc.pieceLen > 0
  {
    HashPresent(pc, i) && ReadAtFull(ra, pc.pieceLen, Offset(pc, i)).Some?
  }

  ghost predicate Matches(ra: ReaderAt, pc: PieceCheck, sha1: Bytes -> Bytes, i: int)
    requires pc.pieceLen > 0
  {
    Checkable(ra, pc, i) && sha1(ReadAtFull(ra, pc.pieceLen, Offset(pc, i)).value) == pc.pieceHashes[i]
  }

  /** A piece can be checked when it has a SHA-1 hash, of twenty bytes (BEP 3), and all of it can be read. */
  lemma CheckableExactly(ra: ReaderAt, pc: PieceCheck, i: nat)
    requires pc.pieceLen > 0
    ensures Checkable(ra, pc, i) <==> i < |pc.pieceHashes| && |pc.pieceHashes[i]| == 20
                                      && |ra(i * pc.pieceLen - pc.fileStart, pc.pieceLen)| == pc.pieceLen
  {
  }

  /** The matching pieces from `first` up to, and not including, `end`. */
  ghost function Matching(ra: ReaderAt, pc: PieceCheck, sha1: Bytes -> Bytes, first: nat, end: nat): set<nat>
    requires pc.pieceLen > 0
  {
    set i: nat | first <= i < end && Matches(ra, pc, sha1, i)
  }

  /** Checks piece after piece, stopping at the first that cannot be checked. */
  method VerifyInteriorPieces(ra: ReaderAt, pc: PieceCheck, sha1: Bytes -> Bytes)
    returns (interior: nat, matched: nat, err: bool)
    requires pc.fileStart >= 0
    ensures InteriorPieces(pc).None? ==> interior == 0 && matched == 0 && !err
    ensures InteriorPieces(pc).Some? ==>
      var (first, last) := InteriorPieces(pc).value;
      && 0 <= first <= last
      && (!err <==> forall i | first <= i <= last :: Checkable(ra, pc, i))
      && (!err ==> interior == last - first + 1 && matched == |Matching(ra, pc, sha1, first, last + 1)|)
      && (err ==> exists bad :: first <= bad <= last && !Checkable(ra, pc, bad)
                    && (forall i | first <= i < bad :: Checkable(ra, pc, i))
                    && interior == bad - first + (if HashPresent(pc, bad) then 1 else 0)
                    && matched == |Matching(ra, pc, sha1, first, bad)|)
  {
    interior, matched, err := 0, 0, false;
    var pieces := InteriorPieces(pc);
    if pieces.None? {
      return;
    }
    var (first, last) := pieces.value;
    InteriorExact(pc);
    for i := first to last + 1
      invariant interior == i - first && matched == |Matching(ra, pc, sha1, first, i)|
      invariant forall j | first <= j < i :: Checkable(ra, pc, j)
    {
      if i >= |pc.pieceHashes| || |pc.pieceHashes[i]| != PIECE_HASH_LEN {
        assert !Checkable(ra, pc, i);
        return interior, matched, true;
      }
      interior := interior + 1;
      var buf := ReadAtFull(ra, pc.pieceLen, i * pc.pieceLen - pc.fileStart);
      if buf.None? {
        assert !Checkable(ra, pc, i) && HashPresent(pc, i);
        return interior, matched, true;
      }
      MatchingStep(ra, pc, sha1, first, i);
      if sha1(buf.value) == pc.pieceHashes[i] {
        matched := matched + 1;
      }
    }
  }

  lemma MatchingStep(ra: ReaderAt, pc: PieceCheck, sha1: Bytes -> Bytes, first: nat, i: nat)
    requires pc.pieceLen > 0 && first <= i
    ensures |Matching(ra, pc, sha1, first, i + 1)|
         == |Matching(ra, pc, sha1, first, i)| + if Matches(ra, pc, sha1, i) then 1 else 0
  {
    var before, after := Matching(ra, pc, sha1, first, i), Matching(ra, pc, sha1, first, i + 1);
    assert after == before + if Matches(ra, pc, sha1, i) then {i} else {};
    assert i !in before;
  }

  predicate CertainMatch(interior: nat, matched: nat) {
    interior > 0 && interior == matched
  }

  /** There are pieces inside the file, and every one of them matches. */
  ghost predicate AllMatch(ra: ReaderAt, pc: PieceCheck, sha1: Bytes -> Bytes) {
    InteriorPieces(pc).Some? && forall i | InteriorPieces(pc).value.0 <= i <= InteriorPieces(pc).value.1 :: Matches(ra, pc, sha1, i)
  }

  /** There is no reader when the file cannot be opened. */
  method FileMatchesPieces(file: Option<ReaderAt>, pc: PieceCheck, sha1: Bytes -> Bytes) returns (r: bool)
    requires pc.fileStart >= 0
    ensures r <==> file.Some? && AllMatch(file.value, pc, sha1)
  {
    if file.None? {
      return false;
    }
    var ra := file.value;
    var interior, matched, err := VerifyInteriorPieces(ra, pc, sha1);
    r := !err && CertainMatch(interior, matched);
    if InteriorPieces(pc).Some? {
      var (first, last) := InteriorPieces(pc).value;
      if err {
        ghost var bad :| first <= bad <= last && !Checkable(ra, pc, bad);
        assert !Matches(ra, pc, sha1, bad);
      } else {
        ghost var m := Matching(ra, pc, sha1, first, last + 1);
        FullMatching(m, first, last + 1);
        assert forall i: nat | first <= i <= last :: i in m <==> Matches(ra, pc, sha1, i);
      }
    }
  }

  /** A set of integers from a range fills it exactly when it has as many elements. */
  lemma {:induction false} FullMatching(s: set<nat>, lo: nat, hi: nat)
    requires lo <= hi && forall i <- s :: lo <= i < hi
    ensures |s| <= hi - lo
    ensures |s| == hi - lo <==> forall i: nat | lo <= i < hi :: i in s
    decreases hi - lo
  {
    if lo == hi {
      assert s == {};
    } else {
      FullMatching(s - {hi - 1}, lo, hi - 1);
      assert s == (s - {hi - 1}) + if hi - 1 in s then {hi - 1} else {};
    }
  }

  // ---- What a match means ----

  /** Piece `i` of the torrent's concatenated files; the last one may be short. */
  function PieceOf(stream: Bytes, n: int, i: int): Bytes
    requires n > 0 && 0 <= i && i * n <= |stream|
  {
    if (i + 1) * n <= |stream| then stream[i * n..(i + 1) * n] else stream[i * n..]
  }

  /** The piece check was built from the torrent: the hash of every piece, and a file within the stream (BEP 3). */
  ghost predicate FromTorrent(pc: PieceCheck, stream: Bytes, sha1: Bytes -> Bytes) {
    && pc.pieceLen > 0 && pc.fileStart >= 0 && pc.fileLen >= 0 && pc.fileStart + pc.fileLen <= |stream|
    && forall i: nat | i * pc.pieceLen < |stream| ::
         HashPresent(pc, i) && pc.pieceHashes[i] == sha1(PieceOf(stream, pc.pieceLen, i))
  }

  /** The candidate's bytes where the torrent has piece `i`. */
  function CandidatePiece(pc: PieceCheck, data: Bytes, i: int): Bytes
    requires 0 <= Offset(pc, i) <= Offset(pc, i) + pc.pieceLen <= |data|
  {
    data[Offset(pc, i)..Offset(pc, i) + pc.pieceLen]
  }

  /** No piece of the candidate has the hash of the torrent's piece at its place without being that piece. */
  ghost predicate NoCollision(pc: PieceCheck, data: Bytes, stream: Bytes, sha1: Bytes -> Bytes)
    requires pc.pieceLen > 0
  {
    forall i: nat | i * pc.pieceLen < |stream| && 0 <= Offset(pc, i) && Offset(pc, i) + pc.pieceLen <= |data| ::
      sha1(CandidatePiece(pc, data, i)) == sha1(PieceOf(stream, pc.pieceLen, i))
      ==> CandidatePiece(pc, data, i) == PieceOf(stream, pc.pieceLen, i)
  }

  /** The candidate agrees with the torrent on the bytes of its interior pieces. */
  ghost predicate SameInterior(pc: PieceCheck, data: Bytes, stream: Bytes, lo: int, hi: int) {
    && 0 <= lo <= hi <= |data| && 0 <= pc.fileStart + lo && pc.fileStart + hi <= |stream|
    && forall k | lo <= k < hi :: data[k] == stream[pc.fileStart + k]
  }

  lemma SameSlices(a: Bytes, x: nat, b: Bytes, y: nat, n: nat)
    requires x + n <= |a| && y + n <= |b|
    ensures a[x..x + n] == b[y..y + n] <==> forall k | x <= k < x + n :: a[k] == b[y - x + k]
  {
    assert forall k | x <= k < x + n :: a[k] == a[x..x + n][k - x] && b[y - x + k] == b[y..y + n][k - x];
  }

  lemma PieceMatches(ra: ReaderAt, pc: PieceCheck, data: Bytes, stream: Bytes, sha1: Bytes -> Bytes, i: int)
    requires FromTorrent(pc, stream, sha1) && Reads(ra, data) && NoCollision(pc, data, stream, sha1)
    requires Inside(pc, i) && i >= 0
    ensures Matches(ra, pc, sha1, i) <==> SameInterior(pc, data, stream, Offset(pc, i), Offset(pc, i + 1))
  {
    NextPiece(pc, i);
    if Offset(pc, i) + pc.pieceLen <= |data| {
      WholePieceMatches(ra, pc, data, stream, sha1, i);
    } else {
      assert |ra(Offset(pc, i), pc.pieceLen)| < pc.pieceLen;
    }
  }

  lemma NextPiece(pc: PieceCheck, i: int)
    ensures Offset(pc, i + 1) == Offset(pc, i) + pc.pieceLen && (i + 1) * pc.pieceLen == i * pc.pieceLen + pc.pieceLen
  {
  }

  /** A piece the candidate has in full. */
  lemma WholePieceMatches(ra: ReaderAt, pc: PieceCheck, data: Bytes, stream: Bytes, sha1: Bytes -> Bytes, i: int)
    requires FromTorrent(pc, stream, sha1) && Reads(ra, data) && NoCollision(pc, data, stream, sha1)
    requires Inside(pc, i) && i >= 0 && Offset(pc, i) + pc.pieceLen <= |data|
    ensures Matches(ra, pc, sha1, i) <==> SameInterior(pc, data, stream, Offset(pc, i), Offset(pc, i + 1))
  {
    NextPiece(pc, i);
    HashOfPiece(ra, pc, data, stream, sha1, i);
    SameSlices(data, Offset(pc, i), stream, i * pc.pieceLen, pc.pieceLen);
  }

  /** Short of a collision, the hashes say whether the bytes are the same. */
  lemma HashOfPiece(ra: ReaderAt, pc: PieceCheck, data: Bytes, stream: Bytes, sha1: Bytes -> Bytes, i: int)
    requires FromTorrent(pc, stream, sha1) && Reads(ra, data) && NoCollision(pc, data, stream, sha1)
    requires Inside(pc, i) && i >= 0 && Offset(pc, i) + pc.pieceLen <= |data|
    ensures i * pc.pieceLen < |stream|
    ensures Matches(ra, pc, sha1, i) <==> CandidatePiece(pc, data, i) == PieceOf(stream, pc.pieceLen, i)
  {
    var mine := CandidatePiece(pc, data, i);
    NextPiece(pc, i);
    assert ra(Offset(pc, i), pc.pieceLen) == mine;
    assert HashPresent(pc, i) && pc.pieceHashes[i] == sha1(PieceOf(stream, pc.pieceLen, i));
  }

  ghost predicate SamePiece(pc: PieceCheck, data: Bytes, stream: Bytes, i: int) {
    SameInterior(pc, data, stream, Offset(pc, i), Offset(pc, i + 1))
  }

  lemma SameJoin(pc: PieceCheck, data: Bytes, stream: Bytes, lo: int, mid: int, hi: int)
    requires lo <= mid <= hi
    ensures SameInterior(pc, data, stream, lo, hi) <==>
            SameInterior(pc, data, stream, lo, mid) && SameInterior(pc, data, stream, mid, hi)
  {
  }

  /** Agreeing on a run of pieces is agreeing on each of them. */
  lemma {:induction false} SameByPiece(pc: PieceCheck, data: Bytes, stream: Bytes, first: int, last: int)
    requires pc.pieceLen > 0 && first <= last
    ensures SameInterior(pc, data, stream, Offset(pc, first), Offset(pc, last + 1)) <==>
            forall i | first <= i <= last :: SamePiece(pc, data, stream, i)
    decreases last - first
  {
    if first == last {
      assert SamePiece(pc, data, stream, first) <==> SameInterior(pc, data, stream, Offset(pc, first), Offset(pc, last + 1));
    } else {
      SameByPiece(pc, data, stream, first, last - 1);
      MulMono(first, last, pc.pieceLen);
      MulMono(last, last + 1, pc.pieceLen);
      SameJoin(pc, data, stream, Offset(pc, first), Offset(pc, last), Offset(pc, last + 1));
      assert (forall i | first <= i <= last :: SamePiece(pc, data, stream, i)) <==>
             (forall i | first <= i <= last - 1 :: SamePiece(pc, data, stream, i)) && SamePiece(pc, data, stream, last);
    }
  }

  /**
    * Soundness and completeness: short of a hash collision, a file is a certain match exactly when the torrent
    * has a piece inside the file and the candidate has the torrent's bytes all over those pieces.
    */
  lemma CertainMatchExact(ra: ReaderAt, pc: PieceCheck, data: Bytes, stream: Bytes, sha1: Bytes -> Bytes)
    requires FromTorrent(pc, stream, sha1) && Reads(ra, data) && NoCollision(pc, data, stream, sha1)
    ensures AllMatch(ra, pc, sha1) <==>
      && InteriorPieces(pc).Some?
      && var (first, last) := InteriorPieces(pc).value; SameInterior(pc, data, stream, Offset(pc, first), Offset(pc, last + 1))
  {
    if InteriorPieces(pc).Some? {
      var (first, last) := InteriorPieces(pc).value;
      assert first >= 0 && forall i | first <= i <= last :: Inside(pc, i) by {
        InteriorExact(pc);
      }
      forall i | first <= i <= last ensures Matches(ra, pc, sha1, i) <==> SamePiece(pc, data, stream, i) {
        PieceMatches(ra, pc, data, stream, sha1, i);
      }
      SameByPiece(pc, data, stream, first, last);
    }
  }

  // ---- Fingerprints ----

  /** The sampled bytes: the whole of a small file, or both ends of a large one. */
  function Ends(data: Bytes): Bytes {
    if |data| <= 2 * SAMPLE_BYTES then data else data[..SAMPLE_BYTES] + data[|data| - SAMPLE_BYTES..]
  }

  /** In numbers: all of a file of up to 128 KiB, and of a larger one the first and the last 64 KiB. */
  lemma PreimageIs(data: Bytes)
    ensures Preimage(data) == Itoa(|data|) + ":" +
      if |data| <= 131072 then data else data[..65536] + data[|data| - 65536..]
  {
  }

  /** What a fingerprint hashes. */
  function Preimage(data: Bytes): Bytes {
    Itoa(|data|) + [':'] + Ends(data)
  }

  /** `readFull` fills a buffer of a length from an offset, or fails; both kinds of file reader come down to it. */
  method Fingerprint(size: int, readFull: (nat, int) -> Option<Bytes>, sha256: Bytes -> Bytes) returns (r: Option<Bytes>)
    ensures r.Some? <==> size >= 0 && if size <= 2 * SAMPLE_BYTES then readFull(size, 0).Some?
              else readFull(SAMPLE_BYTES, 0).Some? && readFull(SAMPLE_BYTES, size - SAMPLE_BYTES).Some?
    ensures forall data | |data| == size && Fills(readFull, data) :: r == Some(sha256(Preimage(data)))
  {
    if size < 0 {
      return None;
    }
    var fed := Itoa(size) + ":";
    if size <= 2 * SAMPLE_BYTES {
      var buf := readFull(size, 0);
      if buf.None? {
        return None;
      }
      fed := fed + buf.value;
      assert forall data | |data| == size && Fills(readFull, data) :: data[0..0 + size] == data;
      return Some(sha256(fed));
    }
    var head := readFull(SAMPLE_BYTES, 0);
    if head.None? {
      return None;
    }
    fed := fed + head.value;
    var tail := readFull(SAMPLE_BYTES, size - SAMPLE_BYTES);
    if tail.None? {
      return None;
    }
    fed := fed + tail.value;
    forall data | |data| == size && Fills(readFull, data) ensures fed == Preimage(data) {
      assert head.value == data[..SAMPLE_BYTES] && tail.value == data[size - SAMPLE_BYTES..];
    }
    return Some(sha256(fed));
  }

  /** Reads inside the file fill the buffer with the file's bytes. */
  ghost predicate Fills(readFull: (nat, int) -> Option<Bytes>, data: Bytes) {
    forall len: nat, off: nat | off + len <= |data| :: readFull(len, off) == Some(data[off..off + len])
  }

  /** The fingerprint of an open file: its content alone decides it. */
  method FingerprintAt(ra: ReaderAt, size: int, sha256: Bytes -> Bytes) returns (r: Option<Bytes>)
    ensures size < 0 ==> r.None?
    ensures forall data | |data| == size && Reads(ra, data) :: r == Some(sha256(Preimage(data)))
  {
    var readFull := (len: nat, off: int) => ReadAtFull(ra, len, off);
    r := Fingerprint(size, readFull, sha256);
    forall data | |data| == size && Reads(ra, data) ensures r == Some(sha256(Preimage(data))) {
      ReaderFills(ra, data);
      assert Fills(readFull, data);
    }
  }

  lemma ReaderFills(ra: ReaderAt, data: Bytes)
    requires Reads(ra, data)
    ensures Fills((len: nat, off) => ReadAtFull(ra, len, off), data)
  {
  }

  /**
    * Short of a collision, two files have the same fingerprint exactly when they have the same size and, small
    * ones, the same bytes, or, large ones, the same bytes at both ends.
    */
  lemma FingerprintExact(a: Bytes, b: Bytes, sha256: Bytes -> Bytes)
    requires sha256(Preimage(a)) == sha256(Preimage(b)) ==> Preimage(a) == Preimage(b)
    ensures sha256(Preimage(a)) == sha256(Preimage(b)) <==>
      && |a| == |b|
      && if |a| <= 2 * SAMPLE_BYTES then a == b
         else a[..SAMPLE_BYTES] == b[..SAMPLE_BYTES] && a[|a| - SAMPLE_BYTES..] == b[|b| - SAMPLE_BYTES..]
  {
    if Preimage(a) == Preimage(b) {
      var x := Ends(a);
      var y := Ends(b);
      assert ':' !in Itoa(|a|) && ':' !in Itoa(|b|);
      FirstSplitUnique(Itoa(|a|), x, Itoa(|b|), y, ':');
      ItoaInjective(|a|, |b|);
      if |a| > 2 * SAMPLE_BYTES {
        SplitEnds(a[..SAMPLE_BYTES], a[|a| - SAMPLE_BYTES..], b[..SAMPLE_BYTES], b[|b| - SAMPLE_BYTES..]);
      }
    }
  }

  lemma SplitEnds(a: Bytes, x: Bytes, b: Bytes, y: Bytes)
    requires a + x == b + y && |a| == |b|
    ensures a == b && x == y
  {
    assert a == (a + x)[..|a|] && b == (b + y)[..|b|];
    assert x == (a + x)[|a|..] && y == (b + y)[|b|..];
  }
}
