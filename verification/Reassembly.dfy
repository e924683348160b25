/** Joining fragments back into payloads (protocol/reassembler.py). */
module Reassembly {
  import opened Bytes
  import opened Varint

  const VERSION_LENGTH := 1

  /** The state of a reassembler as a value. */
  datatype Assembly = Assembly(buffer: bytes, expected: nat, next: nat)

  const FRESH := Assembly([], 0, 0)

  function Append(s: Assembly, body: bytes): (Assembly, Result<Option<bytes>>) {
    var buffer := s.buffer + body;
    if |buffer| > s.expected then (FRESH, Err(TooManyBytes(|buffer|, s.expected)))
    else if |buffer| < s.expected then (Assembly(buffer, s.expected, s.next + 1), Ok(None))
    else (FRESH, Ok(Some(buffer)))
  }

  /** What one notification does: the new state, and the payload, nothing yet, or the error raised. */
  function FeedChunk(s: Assembly, chunk: bytes): (Assembly, Result<Option<bytes>>) {
    match Unpack(chunk, 0)
    case Err(e) => (s, Err(e))
    case Ok((index, position)) =>
      if index == 0 then
        match Unpack(chunk, position)
        case Err(e) => (Assembly([], s.expected, 0), Err(e))
        case Ok((total, end)) =>
          if end + VERSION_LENGTH > |chunk| then (FRESH, Err(FirstFragmentTruncated))
          else Append(Assembly([], total, 0), chunk[end + VERSION_LENGTH..])
      else if index != s.next then (FRESH, Err(OutOfOrder(index, s.next)))
      else
        UnpackSound(chunk, 0);
        Append(s, chunk[position..])
  }

  class PacketReassembler {
    var buffer: bytes
    var expectedLength: nat
    var nextIndex: nat

    ghost function View(): Assembly
      reads this
    {
      Assembly(buffer, expectedLength, nextIndex)
    }

    constructor ()
      ensures View() == FRESH
    {
      buffer := [];
      expectedLength := 0;
      nextIndex := 0;
    }

    method Feed(chunk: bytes) returns (r: Result<Option<bytes>>)
      modifies this
      ensures (View(), r) == FeedChunk(old(View()), chunk)
    {
      var header := UnpackVarint(chunk, 0);
      if header.Err? {
        return Err(header.error);
      }
      UnpackSound(chunk, 0);
      var (index, position) := header.value;
      if index == 0 {
        var started := Start(chunk, position);
        if started.Err? {
          return Err(started.error);
        }
        var skipped := PayloadStart(chunk, position);
        if skipped.Err? {
          return Err(skipped.error);
        }
        position := skipped.value;
      } else if index != nextIndex {
        var expected := nextIndex;
        Reset();
        return Err(OutOfOrder(index, expected));
      }
      buffer := buffer + chunk[position..];
      nextIndex := nextIndex + 1;
      if |buffer| > expectedLength {
        var received, declared := |buffer|, expectedLength;
        Reset();
        return Err(TooManyBytes(received, declared));
      }
      if |buffer| < expectedLength {
        return Ok(None);
      }
      var payload := buffer;
      Reset();
      return Ok(Some(payload));
    }

    method Start(chunk: bytes, position: nat) returns (r: Result<()>)
      modifies this
      ensures buffer == [] && nextIndex == 0
      ensures match Unpack(chunk, position)
              case Ok((total, _)) => r == Ok(()) && expectedLength == total
              case Err(e) => r == Err(e) && expectedLength == old(expectedLength)
    {
      buffer := [];
      nextIndex := 0;
      var declared := UnpackVarint(chunk, position);
      match declared {
        case Err(e) => return Err(e);
        case Ok((total, _)) => expectedLength := total;
      }
      return Ok(());
    }

    method PayloadStart(chunk: bytes, position: nat) returns (r: Result<nat>)
      requires Unpack(chunk, position).Ok?
      modifies this
      ensures var end := Unpack(chunk, position).value.1;
              if end + VERSION_LENGTH > |chunk|
              then r == Err(FirstFragmentTruncated) && View() == FRESH
              else r == Ok(end + VERSION_LENGTH) && View() == old(View())
    {
      var declared := UnpackVarint(chunk, position);
      var (_, end) := declared.value;
      if end + VERSION_LENGTH > |chunk| {
        Reset();
        return Err(FirstFragmentTruncated);
      }
      return Ok(end + VERSION_LENGTH);
    }

    method Reset()
      modifies this
      ensures View() == FRESH
    {
      buffer := [];
      expectedLength := 0;
      nextIndex := 0;
    }
  }

  function FeedAll(s: Assembly, chunks: seq<bytes>): Assembly
    decreases |chunks|
  {
    if chunks == [] then s else FeedAll(FeedChunk(s, chunks[0]).0, chunks[1..])
  }

  /** What each notification of a series returns or raises. */
  function FeedResults(s: Assembly, chunks: seq<bytes>): (r: seq<Result<Option<bytes>>>)
    ensures |r| == |chunks|
    decreases |chunks|
  {
    if chunks == [] then []
    else [FeedChunk(s, chunks[0]).1] + FeedResults(FeedChunk(s, chunks[0]).0, chunks[1..])
  }

  /** The payloads a series of notifications completes, in order, errors passed over. */
  function Delivered(s: Assembly, chunks: seq<bytes>): seq<bytes>
    decreases |chunks|
  {
    if chunks == [] then []
    else
      var (next, r) := FeedChunk(s, chunks[0]);
      (if r.Ok? && r.value.Some? then [r.value.value] else []) + Delivered(next, chunks[1..])
  }

  lemma {:induction false} FeedAllAppend(s: Assembly, left: seq<bytes>, right: seq<bytes>)
    ensures FeedAll(s, left + right) == FeedAll(FeedAll(s, left), right)
    ensures Delivered(s, left + right) == Delivered(s, left) + Delivered(FeedAll(s, left), right)
    decreases |left|
  {
    if left == [] {
      assert left + right == right;
    } else {
      assert (left + right)[1..] == left[1..] + right;
      FeedAllAppend(FeedChunk(s, left[0]).0, left[1..], right);
    }
  }

  /** The class invariant: nothing is buffered between frames, and a frame in progress is incomplete. */
  predicate Consistent(s: Assembly) {
    && (s.next == 0 ==> s.buffer == [])
    && (s.next > 0 ==> |s.buffer| < s.expected)
  }

  lemma {:induction false} FeedConsistent(s: Assembly, chunk: bytes)
    requires Consistent(s)
    ensures Consistent(FeedChunk(s, chunk).0)
    ensures FeedChunk(s, chunk).1.Err? ==> FeedChunk(s, chunk).0 == s || FeedChunk(s, chunk).0.next == 0
  {}

  /** What a chunk says once its header is read. */
  datatype Piece =
    | Unreadable
    | Unopenable
    | Opening(total: nat, body: bytes)
    | Following(index: nat, body: bytes)

  function Classify(chunk: bytes): Piece {
    match Unpack(chunk, 0)
    case Err(_) => Unreadable
    case Ok((index, position)) =>
      UnpackSound(chunk, 0);
      if index != 0 then Following(index, chunk[position..])
      else
        match Unpack(chunk, position)
        case Err(_) => Unopenable
        case Ok((total, end)) =>
          if end + VERSION_LENGTH > |chunk| then Unopenable else Opening(total, chunk[end + VERSION_LENGTH..])
  }

  /** The pieces of a history, leaving out the chunks whose index cannot be read. */
  function Pieces(chunks: seq<bytes>): seq<Piece> {
    if chunks == [] then []
    else
      var piece := Classify(chunks[|chunks| - 1]);
      Pieces(chunks[..|chunks| - 1]) + if piece.Unreadable? then [] else [piece]
  }

  function PieceBodies(pieces: seq<Piece>): bytes {
    if pieces == [] then []
    else
      var last := pieces[|pieces| - 1];
      PieceBodies(pieces[..|pieces| - 1]) + if last.Opening? || last.Following? then last.body else []
  }

  function Last(pieces: seq<Piece>, k: nat): seq<Piece>
    requires k <= |pieces|
  {
    pieces[|pieces| - k..]
  }

  /** An opening piece and the pieces numbered 1, 2, ... after it, short of the declared total. */
  ghost predicate Building(pieces: seq<Piece>, total: nat) {
    && pieces != [] && pieces[0].Opening? && pieces[0].total == total
    && (forall i :: 0 < i < |pieces| ==> pieces[i].Following? && pieces[i].index == i)
    && |PieceBodies(pieces)| < total
  }

  /** A whole frame: pieces 0, 1, ..., k whose bodies join to the payload, as long as declared, but not without the last
      of them. */
  ghost predicate Whole(pieces: seq<Piece>, payload: bytes) {
    && pieces != [] && pieces[0].Opening? && pieces[0].total == |payload|
    && (forall i :: 0 < i < |pieces| ==> pieces[i].Following? && pieces[i].index == i)
    && PieceBodies(pieces) == payload
    && (|pieces| > 1 ==> |PieceBodies(pieces[..|pieces| - 1])| < |payload|)
  }

  /** What the state holds is what the last pieces have built so far. */
  ghost predicate Holds(s: Assembly, pieces: seq<Piece>) {
    && s.next <= |pieces|
    && (s.next > 0 ==> Building(Last(pieces, s.next), s.expected) && PieceBodies(Last(pieces, s.next)) == s.buffer)
  }

  /** A state mirrors a history when it holds exactly the frame that the last pieces are building. */
  ghost predicate Mirrors(s: Assembly, pieces: seq<Piece>) {
    && Consistent(s) && Holds(s, pieces)
    && (forall k, total :: 0 < k <= |pieces| && Building(Last(pieces, k), total) ==> s.next == k)
  }

  lemma {:induction false} BuildingPrefix(pieces: seq<Piece>, piece: Piece, k: nat, total: nat)
    requires 0 < k <= |pieces| + 1
    ensures Last(pieces + [piece], k) == Last(pieces, k - 1) + [piece]
    ensures k > 1 && Building(Last(pieces + [piece], k), total) ==>
              Building(Last(pieces, k - 1), total) && piece.Following? && piece.index == k - 1
  {
    var longer := Last(pieces + [piece], k);
    var shorter := Last(pieces, k - 1);
    assert longer == shorter + [piece];
    if k > 1 && Building(longer, total) {
      BodiesAppend(shorter, piece);
      assert longer[k - 1] == piece;
      forall i | 0 < i < |shorter|
        ensures shorter[i].Following? && shorter[i].index == i
      {
        assert shorter[i] == longer[i];
      }
    }
  }

  lemma {:induction false} BuildingExtend(pieces: seq<Piece>, piece: Piece, total: nat)
    requires Building(pieces, total) && piece.Following? && piece.index == |pieces|
    ensures PieceBodies(pieces + [piece]) == PieceBodies(pieces) + piece.body
    ensures |PieceBodies(pieces) + piece.body| < total ==> Building(pieces + [piece], total)
    ensures |PieceBodies(pieces) + piece.body| == total ==>
              Whole(pieces + [piece], PieceBodies(pieces) + piece.body)
  {
    BodiesAppend(pieces, piece);
    assert (pieces + [piece])[..|pieces|] == pieces;
  }

  lemma {:induction false} BodiesAppend(pieces: seq<Piece>, piece: Piece)
    ensures PieceBodies(pieces + [piece])
         == PieceBodies(pieces) + if piece.Opening? || piece.Following? then piece.body else []
  {
    assert (pieces + [piece])[..|pieces|] == pieces;
  }

  lemma {:induction false} SingleBody(piece: Piece)
    requires piece.Opening? || piece.Following?
    ensures PieceBodies([piece]) == piece.body
  {
    assert [piece][..0] == [];
  }

  /** What a readable piece does to the state, and the payload it completes if any. */
  ghost predicate Advances(s: Assembly, piece: Piece, now: Assembly, out: Option<bytes>) {
    match piece
    case Unreadable => false
    case Unopenable => now.next == 0 && now.buffer == [] && out == None
    case Opening(total, body) => Joins(Append(Assembly([], total, 0), body), now, out)
    case Following(index, body) =>
      index != 0 && if index == s.next then Joins(Append(s, body), now, out) else now == FRESH && out == None
  }

  ghost predicate Joins(r: (Assembly, Result<Option<bytes>>), now: Assembly, out: Option<bytes>) {
    now == r.0 && out == if r.1.Ok? then r.1.value else None
  }

  function PayloadOf(r: Result<Option<bytes>>): Option<bytes> {
    if r.Ok? then r.value else None
  }

  lemma {:induction false} FeedAdvances(s: Assembly, chunk: bytes)
    requires !Classify(chunk).Unreadable?
    ensures Advances(s, Classify(chunk), FeedChunk(s, chunk).0, PayloadOf(FeedChunk(s, chunk).1))
  {}

  /** One piece keeps the mirror. */
  lemma {:induction false} MirrorAfter(s: Assembly, pieces: seq<Piece>, piece: Piece, now: Assembly, out: Option<bytes>)
    requires Mirrors(s, pieces) && Advances(s, piece, now, out)
    ensures Mirrors(now, pieces + [piece])
  {
    var longer := pieces + [piece];
    MirrorBuilding(s, pieces, piece, now, out);
    forall k, total | 0 < k <= |longer| && Building(Last(longer, k), total)
      ensures now.next == k
    {
      MirrorUnique(s, pieces, piece, now, out, k, total);
    }
  }

  lemma {:induction false} MirrorBuilding(
      s: Assembly, pieces: seq<Piece>, piece: Piece, now: Assembly, out: Option<bytes>)
    requires Mirrors(s, pieces) && Advances(s, piece, now, out)
    ensures Holds(now, pieces + [piece])
  {
    if piece.Opening? {
      HoldsOpened(pieces, piece, now, out);
    } else if piece.Following? && piece.index == s.next {
      HoldsMore(s, pieces, piece, now, out);
    }
  }

  lemma {:induction false} HoldsOpened(pieces: seq<Piece>, piece: Piece, now: Assembly, out: Option<bytes>)
    requires piece.Opening? && Joins(Append(Assembly([], piece.total, 0), piece.body), now, out)
    ensures Holds(now, pieces + [piece])
  {
    SingleBody(piece);
    assert Last(pieces + [piece], 1) == [piece];
    assert [] + piece.body == piece.body;
  }

  lemma {:induction false} HoldsMore(
      s: Assembly, pieces: seq<Piece>, piece: Piece, now: Assembly, out: Option<bytes>)
    requires Holds(s, pieces) && piece.Following? && 0 < piece.index == s.next
    requires Joins(Append(s, piece.body), now, out)
    ensures Holds(now, pieces + [piece])
  {
    BuildingPrefix(pieces, piece, s.next + 1, s.expected);
    BuildingExtend(Last(pieces, s.next), piece, s.expected);
  }

  lemma {:induction false} MirrorUnique(
      s: Assembly, pieces: seq<Piece>, piece: Piece, now: Assembly, out: Option<bytes>, k: nat, total: nat)
    requires Mirrors(s, pieces) && Advances(s, piece, now, out)
    requires 0 < k <= |pieces| + 1 && Building(Last(pieces + [piece], k), total)
    ensures now.next == k
  {
    var longer := Last(pieces + [piece], k);
    BuildingPrefix(pieces, piece, k, total);
    if k == 1 {
      assert longer == [piece];
      SingleBody(piece);
    } else {
      var shorter := Last(pieces, k - 1);
      assert s.next == k - 1;
      BuildingTotal(shorter, total, s.expected);
      BuildingExtend(shorter, piece, total);
    }
  }

  lemma {:induction false} BuildingTotal(pieces: seq<Piece>, total: nat, other: nat)
    requires Building(pieces, total) && Building(pieces, other)
    ensures total == other
  {}

  lemma {:induction false} CompletedIsWhole(
      s: Assembly, pieces: seq<Piece>, piece: Piece, now: Assembly, payload: bytes)
    requires Mirrors(s, pieces) && Advances(s, piece, now, Some(payload))
    ensures exists k :: 0 < k <= |pieces| + 1 && Whole(Last(pieces + [piece], k), payload)
  {
    if piece.Opening? {
      SingleBody(piece);
      assert Last(pieces + [piece], 1) == [piece];
      assert Whole(Last(pieces + [piece], 1), payload);
    } else {
      BuildingExtend(Last(pieces, s.next), piece, s.expected);
      BuildingPrefix(pieces, piece, s.next + 1, s.expected);
      assert Whole(Last(pieces + [piece], s.next + 1), payload);
    }
  }

  /** Short of its last piece, a whole frame is still being built. */
  lemma {:induction false} WholeBuilding(shorter: seq<Piece>, piece: Piece, payload: bytes)
    requires shorter != [] && Whole(shorter + [piece], payload)
    ensures Building(shorter, |payload|)
  {
    var longer := shorter + [piece];
    assert longer[..|longer| - 1] == shorter;
    forall i | 0 < i < |shorter|
      ensures shorter[i].Following? && shorter[i].index == i
    {
      assert shorter[i] == longer[i];
    }
    assert shorter[0] == longer[0];
  }

  lemma {:induction false} WholeIsCompleted(
      s: Assembly, pieces: seq<Piece>, piece: Piece, now: Assembly, out: Option<bytes>, k: nat, payload: bytes)
    requires Mirrors(s, pieces) && Advances(s, piece, now, out)
    requires 0 < k <= |pieces| + 1 && Whole(Last(pieces + [piece], k), payload)
    ensures out == Some(payload)
  {
    var longer := Last(pieces + [piece], k);
    var shorter := Last(pieces, k - 1);
    assert longer == shorter + [piece];
    if k == 1 {
      assert longer == [piece];
      SingleBody(piece);
    } else {
      assert longer[k - 1] == piece;
      WholeBuilding(shorter, piece, payload);
      BuildingTotal(shorter, |payload|, s.expected);
      BuildingExtend(shorter, piece, |payload|);
    }
  }

  lemma {:induction false} MirrorHistory(history: seq<bytes>)
    ensures Mirrors(FeedAll(FRESH, history), Pieces(history))
    decreases |history|
  {
    if history != [] {
      var earlier, chunk := history[..|history| - 1], history[|history| - 1];
      MirrorHistory(earlier);
      var s := FeedAll(FRESH, earlier);
      FeedLast(FRESH, earlier, chunk);
      assert history == earlier + [chunk];
      if Classify(chunk).Unreadable? {
        assert Pieces(history) == Pieces(earlier);
        assert FeedChunk(s, chunk).0 == s;
      } else {
        FeedAdvances(s, chunk);
        MirrorAfter(s, Pieces(earlier), Classify(chunk), FeedChunk(s, chunk).0, PayloadOf(FeedChunk(s, chunk).1));
      }
    }
  }

  lemma {:induction false} FeedLast(s: Assembly, earlier: seq<bytes>, chunk: bytes)
    ensures FeedAll(s, earlier + [chunk]) == FeedChunk(FeedAll(s, earlier), chunk).0
  {
    FeedAllAppend(s, earlier, [chunk]);
    var t := FeedAll(s, earlier);
    assert FeedAll(t, [chunk]) == FeedAll(FeedChunk(t, chunk).0, []);
  }

  /** After any history at all, a chunk completes a payload exactly when its index can be read and the readable chunks,
      it included, end in a whole frame for that payload: chunks numbered 0, 1, ..., k, nothing in between, whose
      bodies join to the payload, as long as the first of them declared. */
  lemma {:induction false} CompletesExactlyWholeFrames(history: seq<bytes>, chunk: bytes, payload: bytes)
    ensures FeedChunk(FeedAll(FRESH, history), chunk).1 == Ok(Some(payload)) <==>
            && !Classify(chunk).Unreadable?
            && exists k :: 0 < k <= |Pieces(history + [chunk])| && Whole(Last(Pieces(history + [chunk]), k), payload)
  {
    MirrorHistory(history);
    var longer := history + [chunk];
    assert longer[..|longer| - 1] == history;
    var s, pieces, piece := FeedAll(FRESH, history), Pieces(history), Classify(chunk);
    var now, out := FeedChunk(s, chunk).0, PayloadOf(FeedChunk(s, chunk).1);
    if !piece.Unreadable? {
      assert Pieces(longer) == pieces + [piece];
      FeedAdvances(s, chunk);
      if out == Some(payload) {
        CompletedIsWhole(s, pieces, piece, now, payload);
      }
      if k :| 0 < k <= |pieces| + 1 && Whole(Last(pieces + [piece], k), payload) {
        WholeIsCompleted(s, pieces, piece, now, out, k, payload);
      }
    }
  }

  /** Self-stabilisation: a readable opening chunk makes the past irrelevant, for what it and every later chunk do. */
  lemma {:induction false} OpeningResynchronises(s: Assembly, t: Assembly, chunk: bytes, later: seq<bytes>)
    requires Classify(chunk).Opening?
    ensures FeedResults(s, [chunk] + later) == FeedResults(t, [chunk] + later)
    ensures FeedAll(s, [chunk] + later) == FeedAll(t, [chunk] + later)
  {
    assert ([chunk] + later)[1..] == later;
    assert FeedChunk(s, chunk) == FeedChunk(t, chunk);
  }
}
