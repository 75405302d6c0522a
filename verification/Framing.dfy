/**
 * The native log file: buffered entries, each written as a 4-byte
 * little-endian length and its encoding, and the reader of such files.
 */
module Framing {
  import opened Base
  import opened Log
  import opened Strings

  /** An encoding of entries as bytes; a decoder that gives up on anything else is part of it. */
  datatype Codec = Codec(encode: WalEntry -> bytes, decode: bytes -> Option<WalEntry>)

  /** Decoding inverts encoding, and encodings fit a 32-bit length. */
  ghost predicate Lawful(codec: Codec, e: WalEntry) {
    codec.decode(codec.encode(e)) == Some(e) && |codec.encode(e)| < 0x1_0000_0000
  }

  ghost predicate AllLawful(codec: Codec, es: seq<WalEntry>) {
    forall e :: e in es ==> Lawful(codec, e)
  }

  // ---------------------------------------------------------------- prefixes

  /** The low `k` bytes of a number, least significant first: what does not fit is cut off, as by a cast. */
  function LittleEndian(n: nat, k: nat): (r: bytes)
    ensures |r| == k
  {
    if k == 0 then [] else [n % 256] + LittleEndian(n / 256, k - 1)
  }

  function FromLittleEndian(b: bytes): nat {
    if b == [] then 0
    else
      var low: nat := b[0];
      low + 256 * FromLittleEndian(b[1..])
  }

  function Pow256(k: nat): nat {
    if k == 0 then 1 else 256 * Pow256(k - 1)
  }

  lemma {:induction false} LittleEndianRoundTrip(n: nat, k: nat)
    requires n < Pow256(k)
    ensures FromLittleEndian(LittleEndian(n, k)) == n
  {
    if k > 0 {
      LittleEndianRoundTrip(n / 256, k - 1);
      assert LittleEndian(n, k)[1..] == LittleEndian(n / 256, k - 1);
    }
  }

  /** The length prefix of a frame, and the length a file begins with. */
  function LengthPrefix(n: nat): (r: bytes)
    ensures |r| == 4
  {
    LittleEndian(n, 4)
  }

  function PrefixedLength(file: bytes): nat
    requires |file| >= 4
  {
    FromLittleEndian(file[..4])
  }

  lemma LengthRoundTrip(n: nat, rest: bytes)
    requires n < 0x1_0000_0000
    ensures PrefixedLength(LengthPrefix(n) + rest) == n
  {
    assert Pow256(4) == 0x1_0000_0000 by {
      assert Pow256(1) == 256 && Pow256(2) == 0x1_0000 && Pow256(3) == 0x100_0000;
    }
    LittleEndianRoundTrip(n, 4);
    assert (LengthPrefix(n) + rest)[..4] == LengthPrefix(n);
  }

  function Frame(codec: Codec, e: WalEntry): bytes {
    var body := codec.encode(e);
    LengthPrefix(|body|) + body
  }

  function Frames(codec: Codec, es: seq<WalEntry>): bytes {
    if es == [] then [] else Frame(codec, es[0]) + Frames(codec, es[1..])
  }

  lemma {:induction false} FramesConcat(codec: Codec, a: seq<WalEntry>, b: seq<WalEntry>)
    ensures Frames(codec, a + b) == Frames(codec, a) + Frames(codec, b)
  {
    if a == [] {
      assert a + b == b;
    } else {
      assert (a + b)[1..] == a[1..] + b;
      FramesConcat(codec, a[1..], b);
    }
  }

  lemma FramesSnoc(codec: Codec, es: seq<WalEntry>, e: WalEntry)
    ensures Frames(codec, es + [e]) == Frames(codec, es) + Frame(codec, e)
  {
    FramesConcat(codec, es, [e]);
    assert [e][1..] == [];
    assert Frames(codec, [e]) == Frame(codec, e) + [];
  }

  lemma FrameBehind(base: bytes, frames: bytes, frame: bytes)
    ensures (base + frames) + frame == base + (frames + frame)
  {
  }

  // ------------------------------------------------------------------ writer

  class NativeWalWriter {
    const codec: Codec
    const bufferSize: nat
    var file: bytes
    var buffer: seq<WalEntry>
    /** What the file held when it was opened, nothing once it has been rewritten. */
    ghost var base: bytes
    /** The entries written behind that. */
    ghost var written: seq<WalEntry>

    ghost predicate Valid()
      reads this
    {
      file == base + Frames(codec, written)
    }

    ghost function Contents(): seq<WalEntry>
      reads this
    {
      written + buffer
    }

    /** Opens a file for appending, whatever it holds. */
    constructor (codec: Codec, bufferSize: nat, file: bytes)
      ensures Valid() && this.codec == codec && this.bufferSize == bufferSize
      ensures base == file && written == [] && buffer == []
    {
      this.codec, this.bufferSize := codec, bufferSize;
      this.file, this.buffer, this.base, this.written := file, [], file, [];
      assert file + [] == file;
    }

    /** Writes the buffered entries out, frame by frame. */
    method Drain()
      requires Valid()
      modifies this
      ensures Valid() && buffer == [] && written == old(Contents()) && base == old(base)
    {
      ghost var all := written + buffer;
      while buffer != []
        invariant Valid() && written + buffer == all && base == old(base)
      {
        var body := codec.encode(buffer[0]);
        FramesSnoc(codec, written, buffer[0]);
        FrameBehind(base, Frames(codec, written), Frame(codec, buffer[0]));
        file := file + (LengthPrefix(|body|) + body);
        written := written + [buffer[0]];
        buffer := buffer[1..];
      }
    }

    method Append(e: WalEntry)
      requires Valid()
      modifies this
      ensures Valid() && Contents() == old(Contents()) + [e] && base == old(base)
      ensures buffer == [] || |buffer| < bufferSize
      ensures |old(buffer)| + 1 < bufferSize ==> file == old(file)
    {
      buffer := buffer + [e];
      if |buffer| >= bufferSize {
        Drain();
      }
    }

    method Flush()
      requires Valid()
      modifies this
      ensures Valid() && buffer == [] && written == old(Contents()) && base == old(base)
    {
      if buffer != [] {
        Drain();
      }
    }

    /** Replaces the file; what was buffered is dropped, the snapshot has it. */
    method Rewrite(entries: seq<WalEntry>)
      requires Valid()
      modifies this
      ensures Valid() && buffer == [] && written == entries && base == []
    {
      buffer := [];
      var rewritten: bytes := [];
      for i := 0 to |entries|
        invariant buffer == [] && rewritten == Frames(codec, entries[..i])
      {
        var body := codec.encode(entries[i]);
        assert entries[..i + 1] == entries[..i] + [entries[i]];
        FramesSnoc(codec, entries[..i], entries[i]);
        rewritten := rewritten + (LengthPrefix(|body|) + body);
      }
      assert entries[..|entries|] == entries;
      file, base, written := rewritten, [], entries;
      assert [] + rewritten == rewritten;
    }
  }

  datatype Operation = Append(entry: WalEntry) | Flush | Rewrite(entries: seq<WalEntry>)

  /** The log after a sequence of operations: the last rewrite, if any, followed by the later appends. */
  function LogAfter(log: seq<WalEntry>, ops: seq<Operation>): seq<WalEntry> {
    if ops == [] then log
    else
      var before := LogAfter(log, ops[..|ops| - 1]);
      match ops[|ops| - 1]
      case Append(e) => before + [e]
      case Flush => before
      case Rewrite(entries) => entries
  }

  /** Appends go behind one another in the order made, flushes in between or not; a rewrite begins anew. */
  lemma {:induction false} LogInOrder(log: seq<WalEntry>, ops: seq<Operation>, i: nat)
    requires i < |ops| && forall j :: 0 <= j < |ops| ==> !ops[j].Rewrite?
    ensures log <= LogAfter(log, ops)
    ensures ops[i].Append? ==>
      var at := |LogAfter(log, ops[..i])|;
      at < |LogAfter(log, ops)| && LogAfter(log, ops)[at] == ops[i].entry
    ensures forall entries :: LogAfter(log, ops + [Rewrite(entries)]) == entries
  {
    var init := ops[..|ops| - 1];
    assert forall entries :: (ops + [Rewrite(entries)])[..|ops|] == ops;
    if i < |init| {
      assert init[..i] == ops[..i];
      LogInOrder(log, init, i);
    } else if init != [] {
      LogInOrder(log, init, 0);
    }
  }

  predicate Rewritten(ops: seq<Operation>) {
    exists op :: op in ops && op.Rewrite?
  }

  lemma RewrittenSnoc(ops: seq<Operation>, op: Operation)
    ensures Rewritten(ops + [op]) <==> Rewritten(ops) || op.Rewrite?
  {
    assert op in ops + [op];
    assert forall o :: o in ops + [op] <==> o in ops || o == op;
  }

  /** A log begun further back. */
  lemma {:induction false} LogFrom(existing: seq<WalEntry>, log: seq<WalEntry>, ops: seq<Operation>)
    ensures LogAfter(existing + log, ops)
      == if Rewritten(ops) then LogAfter(log, ops) else existing + LogAfter(log, ops)
  {
    if ops != [] {
      var init, op := ops[..|ops| - 1], ops[|ops| - 1];
      LogFrom(existing, log, init);
      assert ops == init + [op];
      RewrittenSnoc(init, op);
    }
  }

  lemma LogBehind(existing: seq<WalEntry>, ops: seq<Operation>)
    ensures LogAfter(existing, ops) == (if Rewritten(ops) then [] else existing) + LogAfter([], ops)
  {
    LogFrom(existing, [], ops);
    assert existing + [] == existing;
  }

  /** Any sequence of operations: the file grows behind what it held, until it is rewritten. */
  method Perform(w: NativeWalWriter, ops: seq<Operation>)
    requires w.Valid()
    modifies w
    ensures w.Valid() && w.base == if Rewritten(ops) then [] else old(w.base)
    ensures w.Contents() == LogAfter(old(w.Contents()), ops)
  {
    for i := 0 to |ops|
      invariant w.Valid() && w.base == if Rewritten(ops[..i]) then [] else old(w.base)
      invariant w.Contents() == LogAfter(old(w.Contents()), ops[..i])
    {
      assert ops[..i + 1][..i] == ops[..i];
      assert ops[..i + 1] == ops[..i] + [ops[i]];
      RewrittenSnoc(ops[..i], ops[i]);
      match ops[i] {
        case Append(e) => w.Append(e);
        case Flush => w.Flush();
        case Rewrite(entries) => w.Rewrite(entries);
      }
    }
    assert ops[..|ops|] == ops;
  }

  /**
   * A file of whole frames opened, and any sequence of operations: what a
   * reader finds in the file, and then the buffer, is the log, read to a clean
   * end.
   */
  method OpenAndPerform(codec: Codec, bufferSize: nat, existing: seq<WalEntry>, ops: seq<Operation>)
    returns (w: NativeWalWriter)
    requires AllLawful(codec, existing) && LawfulOps(codec, ops)
    ensures fresh(w) && w.Valid() && w.codec == codec
    ensures Read(codec, w.file).end == Clean
    ensures Read(codec, w.file).entries + w.buffer == LogAfter(existing, ops)
  {
    w := new NativeWalWriter(codec, bufferSize, Frames(codec, existing));
    assert w.Contents() == [];
    Perform(w, ops);
    OpenedReads(codec, existing, ops, w.written, w.buffer);
  }

  /** Only lawful entries are written. */
  ghost predicate LawfulOps(codec: Codec, ops: seq<Operation>) {
    forall op :: op in ops ==>
      (op.Append? ==> Lawful(codec, op.entry)) && (op.Rewrite? ==> AllLawful(codec, op.entries))
  }

  lemma OpenedReads(codec: Codec, existing: seq<WalEntry>, ops: seq<Operation>, written: seq<WalEntry>,
    buffer: seq<WalEntry>)
    requires AllLawful(codec, existing) && LawfulOps(codec, ops) && written + buffer == LogAfter([], ops)
    ensures
      var base := if Rewritten(ops) then [] else Frames(codec, existing);
      var r := Read(codec, base + Frames(codec, written));
      r.end == Clean && r.entries + buffer == LogAfter(existing, ops)
  {
    var before := if Rewritten(ops) then [] else existing;
    assert Frames(codec, before) == if Rewritten(ops) then [] else Frames(codec, existing);
    LogBehind(existing, ops);
    LogLawful(codec, ops);
    LawfulFront(codec, before, written, buffer);
    TwoParts(codec, before, written);
    assert (before + written) + buffer == before + (written + buffer);
  }

  lemma TwoParts(codec: Codec, before: seq<WalEntry>, written: seq<WalEntry>)
    requires AllLawful(codec, before + written)
    ensures Read(codec, Frames(codec, before) + Frames(codec, written)) == Reading(before + written, Clean)
  {
    FramesConcat(codec, before, written);
    FileRoundTrip(codec, before + written);
  }

  lemma LawfulFront(codec: Codec, before: seq<WalEntry>, written: seq<WalEntry>, buffer: seq<WalEntry>)
    requires AllLawful(codec, before) && AllLawful(codec, written + buffer)
    ensures AllLawful(codec, before + written)
  {
    forall e | e in before + written ensures Lawful(codec, e) {
      assert e in written ==> e in written + buffer;
    }
  }

  /** What lawful operations leave is lawful. */
  lemma {:induction false} LogLawful(codec: Codec, ops: seq<Operation>)
    requires LawfulOps(codec, ops)
    ensures AllLawful(codec, LogAfter([], ops))
  {
    if ops != [] {
      var init, op := ops[..|ops| - 1], ops[|ops| - 1];
      assert op in ops && forall o :: o in init ==> o in ops;
      LogLawful(codec, init);
    }
  }

  // ------------------------------------------------------------------ reader

  /** How reading ends: at a clean end of file, or with an error. */
  datatype End = Clean | ShortBody | Undecodable

  datatype Reading = Reading(entries: seq<WalEntry>, end: End)

  /** The entries a file yields, and how its reading ends. A short length prefix is a clean end. */
  function Read(codec: Codec, file: bytes): Reading
    decreases |file|
  {
    if |file| < 4 then Reading([], Clean)
    else
      var n, rest := PrefixedLength(file), file[4..];
      if |rest| < n then Reading([], ShortBody)
      else match codec.decode(rest[..n])
        case None => Reading([], Undecodable)
        case Some(e) =>
          var r := Read(codec, rest[n..]);
          Reading([e] + r.entries, r.end)
  }

  /** Entries read, then whatever reading the rest gives. */
  function Then(es: seq<WalEntry>, c: Reading): Reading {
    Reading(es + c.entries, c.end)
  }

  /** One whole frame at the front is read back, and reading goes on behind it. */
  lemma ReadFrame(codec: Codec, e: WalEntry, rest: bytes)
    requires Lawful(codec, e)
    ensures Read(codec, Frame(codec, e) + rest) == Then([e], Read(codec, rest))
  {
    var body := codec.encode(e);
    var file := Frame(codec, e) + rest;
    assert file == LengthPrefix(|body|) + (body + rest);
    LengthRoundTrip(|body|, body + rest);
    assert file[4..] == body + rest;
    assert file[4..][..|body|] == body && file[4..][|body|..] == rest;
  }

  lemma ThenThen(e: WalEntry, es: seq<WalEntry>, c: Reading)
    ensures Then([e], Then(es, c)) == Then([e] + es, c)
  {
  }

  /** One entry read, of those still to come. */
  lemma OneRead(es: seq<WalEntry>, e: WalEntry, was: Reading, rest: Reading)
    requires was.entries != [] && e == was.entries[0] && rest == Reading(was.entries[1..], was.end)
    ensures Then(es, was) == Then(es + [e], rest)
  {
    assert was.entries == [e] + rest.entries;
  }

  /** Whole frames are read back, and reading goes on behind them. */
  lemma {:induction false} ReadFrames(codec: Codec, es: seq<WalEntry>, rest: bytes)
    requires AllLawful(codec, es)
    ensures Read(codec, Frames(codec, es) + rest) == Then(es, Read(codec, rest))
  {
    if es == [] {
      assert Frames(codec, es) + rest == rest;
    } else {
      var e, more := es[0], es[1..];
      assert es == [e] + more && e in es;
      var behind := Frames(codec, more) + rest;
      assert Frames(codec, es) + rest == Frame(codec, e) + behind;
      assert AllLawful(codec, more) by { assert forall x :: x in more ==> x in es; }
      ReadFrames(codec, more, rest);
      ReadFrame(codec, e, behind);
      ThenThen(e, more, Read(codec, rest));
    }
  }

  /** A file written without failures reads back as the log, and ends cleanly. */
  lemma FileRoundTrip(codec: Codec, es: seq<WalEntry>)
    requires AllLawful(codec, es)
    ensures Read(codec, Frames(codec, es)) == Reading(es, Clean)
  {
    ReadFrames(codec, es, []);
    assert Frames(codec, es) + [] == Frames(codec, es);
  }

  /** Which frame a cut falls into: the number of whole frames before it. */
  lemma {:induction false} WholeFrames(codec: Codec, es: seq<WalEntry>, cut: nat) returns (j: nat)
    requires cut <= |Frames(codec, es)|
    ensures j <= |es| && |Frames(codec, es[..j])| <= cut
    ensures j < |es| ==> cut < |Frames(codec, es[..j + 1])|
  {
    if cut == |Frames(codec, es)| {
      j := |es|;
      assert es[..j] == es;
    } else {
      var init := es[..|es| - 1];
      j := |init|;
      assert es[..j] == init && es[..|es|] == es;
      if cut < |Frames(codec, init)| {
        j := WholeFrames(codec, init, cut);
        assert init[..|init|] == init && init[..j] == es[..j];
        assert j < |init| ==> init[..j + 1] == es[..j + 1];
      }
    }
  }

  /** A frame cut short yields nothing: a clean end inside the prefix, an error inside the body. */
  lemma ReadPartialFrame(codec: Codec, e: WalEntry, n: nat)
    requires Lawful(codec, e) && n < |Frame(codec, e)|
    ensures Read(codec, Frame(codec, e)[..n]) == Reading([], if n < 4 then Clean else ShortBody)
  {
    var body, piece := codec.encode(e), Frame(codec, e)[..n];
    if n >= 4 {
      assert piece == LengthPrefix(|body|) + body[..n - 4];
      LengthRoundTrip(|body|, body[..n - 4]);
    }
  }

  /** The bytes from a frame boundary on, up to a cut within the next frame. */
  lemma PieceOfFrame(codec: Codec, es: seq<WalEntry>, j: nat, cut: nat)
    requires j < |es| && |Frames(codec, es[..j])| <= cut < |Frames(codec, es[..j + 1])|
    ensures cut <= |Frames(codec, es)|
    ensures
      var front := Frames(codec, es[..j]);
      cut - |front| < |Frame(codec, es[j])| && Frames(codec, es)[..cut] == front + Frame(codec, es[j])[..cut - |front|]
  {
    var front, frame, rest := Frames(codec, es[..j]), Frame(codec, es[j]), Frames(codec, es[j + 1..]);
    assert es == es[..j + 1] + es[j + 1..] && es[..j + 1] == es[..j] + [es[j]];
    FramesConcat(codec, es[..j + 1], es[j + 1..]);
    FramesSnoc(codec, es[..j], es[j]);
    assert ((front + frame) + rest)[..cut] == front + frame[..cut - |front|];
  }

  lemma ReadCut(codec: Codec, es: seq<WalEntry>, j: nat, cut: nat)
    requires AllLawful(codec, es)
    requires j < |es| && |Frames(codec, es[..j])| <= cut < |Frames(codec, es[..j + 1])|
    ensures cut <= |Frames(codec, es)|
    ensures
      var whole := |Frames(codec, es[..j])|;
      Read(codec, Frames(codec, es)[..cut]) == Reading(es[..j], if cut - whole < 4 then Clean else ShortBody)
  {
    var n := cut - |Frames(codec, es[..j])|;
    PieceOfFrame(codec, es, j, cut);
    assert forall e :: e in es[..j] ==> e in es;
    assert es[j] in es;
    ReadFrames(codec, es[..j], Frame(codec, es[j])[..n]);
    ReadPartialFrame(codec, es[j], n);
    assert es[..j] + [] == es[..j];
  }

  /**
   * Reading a file cut anywhere yields the whole leading entries and nothing
   * else. It ends cleanly if the cut falls on a frame boundary or inside a
   * length prefix, and with an error if it falls inside a body.
   */
  lemma TruncatedFile(codec: Codec, es: seq<WalEntry>, cut: nat) returns (j: nat)
    requires AllLawful(codec, es) && cut <= |Frames(codec, es)|
    ensures j <= |es| && |Frames(codec, es[..j])| <= cut
    ensures j < |es| ==> cut < |Frames(codec, es[..j + 1])|
    ensures
      var whole := |Frames(codec, es[..j])|;
      Read(codec, Frames(codec, es)[..cut]) == Reading(es[..j], if cut - whole < 4 then Clean else ShortBody)
  {
    j := WholeFrames(codec, es, cut);
    if j == |es| {
      assert es[..j] == es;
      FileRoundTrip(codec, es);
      assert Frames(codec, es)[..cut] == Frames(codec, es);
    } else {
      ReadCut(codec, es, j, cut);
    }
  }

  // --------------------------------------------- appending to a cut-off file

  /** Whatever is appended to the cut file is read back behind its whole leading entries, to a clean end. */
  ghost predicate CanAppend(codec: Codec, es: seq<WalEntry>, j: nat, cut: nat)
    requires j <= |es| && cut <= |Frames(codec, es)|
  {
    forall more :: AllLawful(codec, more) ==>
      Read(codec, Frames(codec, es)[..cut] + Frames(codec, more)) == Reading(es[..j] + more, Clean)
  }

  /** Four bytes of which one behind the first is not zero make a length of at least 256 times that byte. */
  lemma LongLength(b: bytes, p: nat, k: nat)
    requires |b| == 4 && 1 <= p < 4 && b[p] == k
    ensures FromLittleEndian(b) >= 256 * k
  {
    var b1, b2, b3 := b[1..], b[1..][1..], b[1..][1..][1..];
    assert FromLittleEndian(b) == b[0] + 256 * FromLittleEndian(b1);
    assert FromLittleEndian(b1) == b[1] + 256 * FromLittleEndian(b2);
    assert FromLittleEndian(b2) == b[2] + 256 * FromLittleEndian(b3);
    assert FromLittleEndian(b3) == b[3] + 256 * FromLittleEndian(b3[1..]);
  }

  /** A short frame behind one to three stray bytes is taken for the body of a longer one. */
  lemma StrayPrefix(codec: Codec, stray: bytes, x: WalEntry)
    requires 1 <= |stray| <= 3 && 0 < |codec.encode(x)| < 256
    ensures Read(codec, stray + Frame(codec, x)) == Reading([], ShortBody)
  {
    var body, file, p := codec.encode(x), stray + Frame(codec, x), |stray|;
    assert LittleEndian(|body|, 4) == [|body| % 256] + LittleEndian(|body| / 256, 3);
    assert file[..4][p] == |body|;
    LongLength(file[..4], p, |body|);
  }

  /** The bytes of a cut file behind its whole leading frames. */
  lemma CutPiece(codec: Codec, es: seq<WalEntry>, j: nat, cut: nat) returns (piece: bytes)
    requires AllLawful(codec, es) && j <= |es| && |Frames(codec, es[..j])| <= cut <= |Frames(codec, es)|
    requires j < |es| ==> cut < |Frames(codec, es[..j + 1])|
    ensures |piece| == cut - |Frames(codec, es[..j])|
    ensures Frames(codec, es)[..cut] == Frames(codec, es[..j]) + piece
    ensures forall more :: Read(codec, Frames(codec, es)[..cut] + more) == Then(es[..j], Read(codec, piece + more))
  {
    var front := Frames(codec, es[..j]);
    assert es == es[..j] + es[j..];
    FramesConcat(codec, es[..j], es[j..]);
    piece := Frames(codec, es)[..cut][|front|..];
    assert Frames(codec, es)[..cut] == front + piece;
    assert forall e :: e in es[..j] ==> e in es;
    forall more ensures Read(codec, Frames(codec, es)[..cut] + more) == Then(es[..j], Read(codec, piece + more)) {
      ReadBehind(codec, es[..j], piece, more);
    }
  }

  lemma ReadBehind(codec: Codec, es: seq<WalEntry>, piece: bytes, more: bytes)
    requires AllLawful(codec, es)
    ensures Read(codec, (Frames(codec, es) + piece) + more) == Then(es, Read(codec, piece + more))
  {
    assert (Frames(codec, es) + piece) + more == Frames(codec, es) + (piece + more);
    ReadFrames(codec, es, piece + more);
  }

  /**
   * A file cut off behind its first `j` whole frames can be appended to if and
   * only if the cut is on a frame boundary. Reading it ends cleanly after a
   * cut inside a length prefix too, but what is appended then is misframed.
   * Some entry, `x`, has a short encoding.
   */
  lemma CanAppendExact(codec: Codec, es: seq<WalEntry>, j: nat, cut: nat, x: WalEntry)
    requires AllLawful(codec, es) && j <= |es| && |Frames(codec, es[..j])| <= cut <= |Frames(codec, es)|
    requires j < |es| ==> cut < |Frames(codec, es[..j + 1])|
    requires Lawful(codec, x) && 0 < |codec.encode(x)| < 256
    ensures CanAppend(codec, es, j, cut) <==> cut == |Frames(codec, es[..j])|
  {
    var piece := CutPiece(codec, es, j, cut);
    assert es[..|es|] == es;
    if piece == [] {
      forall more | AllLawful(codec, more)
        ensures Read(codec, Frames(codec, es)[..cut] + Frames(codec, more)) == Reading(es[..j] + more, Clean)
      {
        assert [] + Frames(codec, more) == Frames(codec, more);
        FileRoundTrip(codec, more);
      }
    } else {
      CannotAppend(codec, es, j, cut, x, piece);
    }
  }

  /** What fails behind a partial frame: nothing at all inside a body, the short entry inside a prefix. */
  lemma CannotAppend(codec: Codec, es: seq<WalEntry>, j: nat, cut: nat, x: WalEntry, piece: bytes)
    requires AllLawful(codec, es) && j < |es| && |Frames(codec, es[..j])| < cut <= |Frames(codec, es)|
    requires cut < |Frames(codec, es[..j + 1])|
    requires Lawful(codec, x) && 0 < |codec.encode(x)| < 256
    requires |piece| == cut - |Frames(codec, es[..j])|
    requires forall more :: Read(codec, Frames(codec, es)[..cut] + more) == Then(es[..j], Read(codec, piece + more))
    ensures !CanAppend(codec, es, j, cut)
  {
    if |piece| < 4 {
      assert [x][1..] == [] && Frames(codec, [x]) == Frame(codec, x) + [] == Frame(codec, x);
      StrayPrefix(codec, piece, x);
      assert Read(codec, Frames(codec, es)[..cut] + Frames(codec, [x])).end == ShortBody;
      assert AllLawful(codec, [x]);
    } else {
      ReadCut(codec, es, j, cut);
      var file := Frames(codec, es)[..cut];
      assert file + Frames(codec, []) == file;
      assert Read(codec, file + Frames(codec, [])).end == ShortBody;
      assert AllLawful(codec, []);
    }
  }

  /** The file reader: refills its body buffer entry by entry. */
  class NativeWalReader {
    const codec: Codec
    const file: bytes
    var at: nat

    constructor (codec: Codec, file: bytes)
      ensures this.codec == codec && this.file == file && at == 0
    {
      this.codec, this.file, this.at := codec, file, 0;
    }

    /** The next entry, or None at a clean end, or the error. */
    method NextEntry() returns (next: Result<Option<WalEntry>, End>)
      requires at <= |file|
      modifies this`at
      ensures at <= |file|
      ensures
        var was := Read(codec, file[old(at)..]);
        match next
        case Ok(Some(e)) =>
          was.entries != [] && e == was.entries[0] && at > old(at)
          && Read(codec, file[at..]) == Reading(was.entries[1..], was.end)
        case Ok(None) => was == Reading([], Clean)
        case Err(end) => was == Reading([], end) && end != Clean
    {
      var rest := file[at..];
      if |rest| < 4 {
        return Ok(None);
      }
      var n := PrefixedLength(rest);
      if |rest| - 4 < n {
        return Err(ShortBody);
      }
      match codec.decode(rest[4..][..n])
      case None => return Err(Undecodable);
      case Some(e) =>
        at := at + 4 + n;
        assert file[at..] == rest[4..][n..];
        return Ok(Some(e));
    }

    /** Reads to the end. */
    method ReadAll() returns (entries: seq<WalEntry>, end: End)
      requires at == 0
      modifies this`at
      ensures Reading(entries, end) == Read(codec, file)
    {
      entries := [];
      assert file[0..] == file;
      while true
        invariant at <= |file| && Read(codec, file) == Then(entries, Read(codec, file[at..]))
        decreases |file| - at
      {
        ghost var was := Read(codec, file[at..]);
        var next := NextEntry();
        match next {
          case Ok(Some(e)) =>
            OneRead(entries, e, was, Read(codec, file[at..]));
            entries := entries + [e];
          case Ok(None) => return entries, Clean;
          case Err(error) => return entries, error;
        }
      }
    }
  }
}
