/** The log tailer: an incremental reader with an exact byte offset (tail.go:18-94). */
module Tailer {
  import opened Common

  type Bytes = seq<byte>

  const LF: byte := 10
  const CR: byte := 13
  const A: byte := 97

  /** What opening the path yields: the inode and the bytes that are there now. */
  datatype File = File(inode: nat, data: Bytes)

  // ------------------------------------------ what one pass over bytes delivers

  /** bytes.TrimRight(line, "\r\n"). */
  function Trim(s: Bytes): Bytes {
    if s != [] && (s[|s| - 1] == LF || s[|s| - 1] == CR) then Trim(s[..|s| - 1]) else s
  }

  function Line(s: Bytes): seq<Bytes> {
    if Trim(s) == [] then [] else [Trim(s)]
  }

  /** One pass, byte by byte: the non-empty trimmed lines completed so far and the unfinished one. */
  datatype Pass = Pass(lines: seq<Bytes>, partial: Bytes)

  function Feed(p: Pass, c: byte): Pass {
    if c == LF then Pass(p.lines + Line(p.partial + [LF]), []) else p.(partial := p.partial + [c])
  }

  function PassOver(s: Bytes): Pass {
    if s == [] then Pass([], []) else Feed(PassOver(s[..|s| - 1]), s[|s| - 1])
  }

  function LinesOf(s: Bytes): seq<Bytes> { PassOver(s).lines }

  /** What the pass has left over is everything after the last line boundary. */
  predicate Leftover(s: Bytes, n: nat, partial: Bytes) {
    && n <= |s| && partial == s[n..]
    && (n > 0 ==> s[n - 1] == LF)
    && forall k :: n <= k < |s| ==> s[k] != LF
  }

  lemma LeftoverGrows(front: Bytes, c: byte, n: nat, partial: Bytes)
    requires Leftover(front, n, partial) && c != LF
    ensures Leftover(front + [c], n, partial + [c]) && (front + [c])[..n] == front[..n]
  {
    assert (front + [c])[..n] == front[..n];
    assert (front + [c])[n..] == front[n..] + [c];
  }

  lemma PassSnoc(front: Bytes, c: byte)
    ensures PassOver(front + [c]) == Feed(PassOver(front), c)
  {
    assert (front + [c])[..|front|] == front;
  }

  lemma {:induction false} PartialIsSuffix(s: Bytes)
    ensures |PassOver(s).partial| <= |s|
    ensures var n := |s| - |PassOver(s).partial|;
      && Leftover(s, n, PassOver(s).partial) && PassOver(s[..n]) == Pass(LinesOf(s), [])
  {
    if s != [] {
      var front, c := s[..|s| - 1], s[|s| - 1];
      assert s == front + [c];
      PartialIsSuffix(front);
      PassSnoc(front, c);
      if c == LF {
        assert s[..|s|] == s && s[|s|..] == [];
      } else {
        LeftoverGrows(front, c, |front| - |PassOver(front).partial|, PassOver(front).partial);
      }
    }
  }

  /** The length of s up to and including its last newline. */
  function Whole(s: Bytes): (n: nat)
    ensures n <= |s|
  {
    PartialIsSuffix(s);
    |s| - |PassOver(s).partial|
  }

  lemma WholeIsLastNewline(s: Bytes)
    ensures Whole(s) > 0 ==> s[Whole(s) - 1] == LF
    ensures forall k :: Whole(s) <= k < |s| ==> s[k] != LF
    ensures PassOver(s[..Whole(s)]) == Pass(LinesOf(s), [])
  {
    PartialIsSuffix(s);
    assert Leftover(s, Whole(s), PassOver(s).partial);
  }

  /** Bytes that end at a line boundary can be read apart from what follows. */
  lemma {:induction false} PassConcat(a: Bytes, b: Bytes)
    requires PassOver(a).partial == []
    ensures PassOver(a + b) == Pass(LinesOf(a) + LinesOf(b), PassOver(b).partial)
  {
    if b == [] {
      assert a + b == a && LinesOf(a) + [] == LinesOf(a);
    } else {
      var front, c := b[..|b| - 1], b[|b| - 1];
      PassConcat(a, front);
      assert b == front + [c] && a + b == a + front + [c];
      PassSnoc(front, c);
      PassSnoc(a + front, c);
      AssocLines(LinesOf(a), LinesOf(front), Line(PassOver(front).partial + [LF]));
    }
  }

  lemma {:induction false} NoNewlineNoLine(s: Bytes)
    requires forall k :: 0 <= k < |s| ==> s[k] != LF
    ensures PassOver(s) == Pass([], s)
  {
    if s != [] {
      NoNewlineNoLine(s[..|s| - 1]);
      assert s == s[..|s| - 1] + [s[|s| - 1]];
    }
  }

  lemma OneLine(part: Bytes)
    requires forall k :: 0 <= k < |part| ==> part[k] != LF
    ensures PassOver(part + [LF]) == Pass(Line(part + [LF]), [])
  {
    NoNewlineNoLine(part);
    assert (part + [LF])[..|part|] == part;
    assert [] + Line(part + [LF]) == Line(part + [LF]);
  }

  /** Bytes up to the first newline are one line of the pass. */
  lemma FirstLine(part: Bytes, rest: Bytes)
    requires forall k :: 0 <= k < |part| ==> part[k] != LF
    ensures PassOver(part + [LF] + rest) == Pass(Line(part + [LF]) + LinesOf(rest), PassOver(rest).partial)
  {
    OneLine(part);
    PassConcat(part + [LF], rest);
  }

  /** Trimming takes off exactly the carriage returns and newlines at the end. */
  lemma {:induction false} TrimSays(s: Bytes)
    ensures |Trim(s)| <= |s| && Trim(s) == s[..|Trim(s)|]
    ensures forall k :: |Trim(s)| <= k < |s| ==> s[k] == 10 || s[k] == 13
    ensures Trim(s) != [] ==> s[|Trim(s)| - 1] != 10 && s[|Trim(s)| - 1] != 13
  {
    if s != [] && (s[|s| - 1] == LF || s[|s| - 1] == CR) {
      var front := s[..|s| - 1];
      TrimSays(front);
      assert forall k :: 0 <= k < |front| ==> front[k] == s[k];
      assert front[..|Trim(front)|] == s[..|Trim(front)|];
    } else {
      assert s[..|s|] == s;
    }
  }

  /** THE LINES OF BYTES: nothing without a newline; otherwise what precedes the first one, trimmed, unless
      that is empty, and then the lines of what follows it. */
  lemma LinesSay(part: Bytes, rest: Bytes)
    requires forall k :: 0 <= k < |part| ==> part[k] != 10
    ensures LinesOf(part) == []
    ensures LinesOf(part + [10] + rest) == (if Trim(part) == [] then [] else [Trim(part)]) + LinesOf(rest)
  {
    NoNewlineNoLine(part);
    FirstLine(part, rest);
    TrimNewline(part);
  }

  // --------------------------------------------------------------- the tailer

  datatype State = State(offset: nat, inode: nat, seeded: bool, startAtEnd: bool, maxBytes: int)

  function Limit(t: State, f: File): nat
    requires t.offset <= |f.data|
  {
    var left := |f.data| - t.offset;
    if 0 < t.maxBytes < left then t.maxBytes else left
  }

  /** Seeding without history and rotation, before anything is read. */
  function Begun(t: State, f: File): (r: State)
    ensures r.offset <= |f.data|
  {
    var t1 := if t.seeded then t else t.(seeded := true, inode := f.inode, offset := 0);
    if f.inode != t1.inode || |f.data| < t1.offset then t1.(inode := f.inode, offset := 0) else t1
  }

  function Chunk(t: State, f: File): Bytes
    requires t.offset <= |f.data|
  {
    f.data[t.offset..t.offset + Limit(t, f)]
  }

  lemma NothingNew(t: State, f: File)
    requires t.offset == |f.data|
    ensures Chunk(t, f) == [] && Whole([]) == 0 && LinesOf([]) == []
  {
  }

  /** One poll: the new state and the lines it delivers. */
  function Poll(t: State, f: File): (State, seq<Bytes>) {
    if !t.seeded && t.startAtEnd then
      (t.(seeded := true, inode := f.inode, offset := |f.data|), [])
    else
      var r := Begun(t, f);
      (r.(offset := r.offset + Whole(Chunk(r, f))), LinesOf(Chunk(r, f)))
  }

  /** The read loop: what is left of the chunk after `lines` and `offset`. */
  ghost predicate ReadSoFar(chunk: Bytes, rest: Bytes, lines: seq<Bytes>) {
    |rest| <= |chunk| && PassOver(chunk) == Pass(lines + LinesOf(rest), PassOver(rest).partial)
  }

  lemma ReadStart(chunk: Bytes)
    ensures ReadSoFar(chunk, chunk, [])
  {
    assert [] + LinesOf(chunk) == LinesOf(chunk);
  }

  lemma CutAt(s: Bytes, i: nat)
    requires i < |s|
    ensures s[..i + 1] == s[..i] + [s[i]] && s == s[..i] + [s[i]] + s[i + 1..]
  {
  }

  lemma ReadLine(chunk: Bytes, rest: Bytes, lines: seq<Bytes>, i: nat)
    requires ReadSoFar(chunk, rest, lines)
    requires i < |rest| && rest[i] == LF && forall k :: 0 <= k < i ==> rest[k] != LF
    ensures ReadSoFar(chunk, rest[i + 1..], lines + Line(rest[..i + 1]))
  {
    var part, later := rest[..i], rest[i + 1..];
    CutAt(rest, i);
    FirstLine(part, later);
    AssocLines(lines, Line(part + [LF]), LinesOf(later));
    assert PassOver(rest) == Pass(Line(part + [LF]) + LinesOf(later), PassOver(later).partial);
  }

  /** Reading is over when no newline is left. */
  lemma ReadAll(chunk: Bytes, rest: Bytes, lines: seq<Bytes>)
    requires ReadSoFar(chunk, rest, lines) && forall k :: 0 <= k < |rest| ==> rest[k] != LF
    ensures lines == LinesOf(chunk) && |chunk| - |rest| == Whole(chunk)
  {
    NoNewlineNoLine(rest);
    assert lines + [] == lines;
  }

  lemma AddLine(lines: seq<Bytes>, s: Bytes)
    ensures lines + Line(s) == if |Trim(s)| > 0 then lines + [Trim(s)] else lines
  {
  }

  class Tail {
    var offset: nat
    var inode: nat
    var seeded: bool
    var startAtEnd: bool
    var maxBytes: int

    function Contents(): State reads this { State(offset, inode, seeded, startAtEnd, maxBytes) }

    constructor ()
      ensures Contents() == State(0, 0, false, true, 33554432)
    {
      offset, inode, seeded, startAtEnd, maxBytes := 0, 0, false, true, 33554432;
    }

    method Position() returns (o: nat, i: nat)
      ensures o == offset && i == inode
    {
      return offset, inode;
    }

    method Restore(o: nat, i: nat)
      modifies this`offset, this`inode, this`seeded
      ensures Contents() == old(Contents()).(offset := o, inode := i, seeded := i != 0)
    {
      offset, inode, seeded := o, i, i != 0;
    }

    /** Delivers every complete new line; a file that cannot be opened changes nothing. */
    method Lines(file: Option<File>) returns (ok: bool, lines: seq<Bytes>)
      modifies this
      ensures ok == file.Some?
      ensures !ok ==> lines == [] && Contents() == old(Contents())
      ensures ok ==> (Contents(), lines) == Poll(old(Contents()), file.value)
    {
      lines := [];
      if file.None? {
        return false, [];
      }
      var f := file.value;
      var size := |f.data|;
      if !seeded {
        seeded := true;
        inode := f.inode;
        if startAtEnd {
          offset := size;
          return true, [];
        }
        offset := 0;
      }
      if f.inode != inode || size < offset {
        inode := f.inode;
        offset := 0;
      }
      assert Contents() == Begun(old(Contents()), f);
      if size == offset {
        NothingNew(Contents(), f);
        return true, [];
      }
      var limit := size - offset;
      if maxBytes > 0 && limit > maxBytes {
        limit := maxBytes;
      }
      ok := true;
      lines := ReadChunk(Chunk(Contents(), f));
    }

    /** The buffered read loop over the bytes one poll may look at. */
    method ReadChunk(chunk: Bytes) returns (lines: seq<Bytes>)
      modifies this`offset
      ensures lines == LinesOf(chunk) && offset == old(offset) + Whole(chunk)
    {
      var rest := chunk;
      lines := [];
      ReadStart(chunk);
      while true
        invariant ReadSoFar(chunk, rest, lines)
        invariant offset == old(offset) + |chunk| - |rest|
        decreases |rest|
      {
        var i := 0;
        while i < |rest| && rest[i] != LF
          invariant i <= |rest| && forall k :: 0 <= k < i ==> rest[k] != LF
        {
          i := i + 1;
        }
        if i == |rest| {
          ReadAll(chunk, rest, lines);
          return;
        }
        ReadLine(chunk, rest, lines, i);
        AddLine(lines, rest[..i + 1]);
        var line := Trim(rest[..i + 1]);
        offset := offset + i + 1;
        if |line| > 0 {
          lines := lines + [line];
        }
        rest := rest[i + 1..];
      }
    }
  }

  // -------------------------------------------------- any polling schedule

  /** What happens between polls: the file grows, is replaced by another, or loses its end. */
  datatype Event =
    | Append(bytes: Bytes)
    | PollNow
    | Rotate(file: File)
    | Truncate(size: nat)

  datatype World = World(t: State, f: File, delivered: seq<Bytes>)

  function Step(w: World, e: Event): World {
    match e
    case Append(bytes) => w.(f := w.f.(data := w.f.data + bytes))
    case PollNow => var (t, lines) := Poll(w.t, w.f); w.(t := t, delivered := w.delivered + lines)
    case Rotate(file) => w.(f := file)
    case Truncate(size) => if size < |w.f.data| then w.(f := w.f.(data := w.f.data[..size])) else w
  }

  function Run(w: World, es: seq<Event>): World {
    if es == [] then w else Step(Run(w, es[..|es| - 1]), es[|es| - 1])
  }

  predicate AppendOnly(es: seq<Event>) { forall e :: e in es ==> e.Append? || e.PollNow? }

  lemma AppendOnlyFront(es: seq<Event>)
    requires AppendOnly(es) && es != []
    ensures AppendOnly(es[..|es| - 1]) && (es[|es| - 1].Append? || es[|es| - 1].PollNow?)
  {
    assert es[|es| - 1] in es;
  }

  /** A tailer in step with its file. */
  predicate Following(t: State, f: File) { t.seeded && t.inode == f.inode && t.offset <= |f.data| }

  /** The first poll of an unseeded tailer puts it in step: at the end of the file, or after the lines
      of its first chunk. */
  lemma FirstPollFollows(t: State, f: File)
    requires !t.seeded
    ensures Following(Poll(t, f).0, f)
    ensures t.startAtEnd ==> Poll(t, f).0.offset == |f.data| && Poll(t, f).1 == []
    ensures !t.startAtEnd ==> Poll(t, f) == Poll(t.(seeded := true, inode := f.inode, offset := 0), f)
  {
  }

  lemma JoinSlices(data: Bytes, a: nat, o: nat, e: nat, n: nat)
    requires a <= o <= e <= |data| && n <= e - o
    ensures data[a..o + n] == data[a..o] + data[o..e][..n]
  {
  }

  lemma AssocLines(a: seq<Bytes>, b: seq<Bytes>, c: seq<Bytes>)
    ensures a + (b + c) == a + b + c
  {
  }

  lemma ReadMore(before: Bytes, chunk: Bytes)
    requires PassOver(before).partial == []
    ensures PassOver(before + chunk[..Whole(chunk)]) == Pass(LinesOf(before) + LinesOf(chunk), [])
  {
    var read := chunk[..Whole(chunk)];
    WholeIsLastNewline(chunk);
    PassConcat(before, read);
  }

  /** Reading one more chunk keeps the delivered lines those of the bytes passed. */
  lemma ChunkExtends(data: Bytes, a: nat, o: nat, e: nat)
    requires a <= o <= e <= |data| && PassOver(data[a..o]).partial == []
    ensures PassOver(data[a..o + Whole(data[o..e])]) == Pass(LinesOf(data[a..o]) + LinesOf(data[o..e]), [])
  {
    ReadMore(data[a..o], data[o..e]);
    JoinSlices(data, a, o, e, Whole(data[o..e]));
  }

  /** The bytes between `start` and the offset are whole lines, and are what was delivered. */
  ghost predicate Exact(w: World, start: nat, earlier: seq<Bytes>) {
    && Following(w.t, w.f) && start <= w.t.offset
    && PassOver(w.f.data[start..w.t.offset]).partial == []
    && w.delivered == earlier + LinesOf(w.f.data[start..w.t.offset])
  }

  function Read(w: World): World
    requires w.t.offset <= |w.f.data|
  {
    var chunk := Chunk(w.t, w.f);
    w.(t := w.t.(offset := w.t.offset + Whole(chunk)), delivered := w.delivered + LinesOf(chunk))
  }

  lemma PollReads(w: World)
    requires Following(w.t, w.f)
    ensures Step(w, PollNow) == Read(w)
  {
  }

  lemma ReadStaysExact(w: World, start: nat, earlier: seq<Bytes>)
    requires Exact(w, start, earlier)
    ensures Exact(Read(w), start, earlier)
  {
    var data, o, end := w.f.data, w.t.offset, w.t.offset + Limit(w.t, w.f);
    ChunkExtends(data, start, o, end);
    AssocLines(earlier, LinesOf(data[start..o]), LinesOf(data[o..end]));
  }

  lemma StepStaysExact(w: World, e: Event, start: nat, earlier: seq<Bytes>)
    requires Exact(w, start, earlier) && (e.Append? || e.PollNow?)
    ensures Exact(Step(w, e), start, earlier)
  {
    if e.Append? {
      assert (w.f.data + e.bytes)[start..w.t.offset] == w.f.data[start..w.t.offset];
    } else {
      PollReads(w);
      ReadStaysExact(w, start, earlier);
    }
  }

  /** EXACT DELIVERY: whatever the polling schedule over an append-only file, the lines delivered are
      those one pass would find between the starting offset and the current one, each once and in
      order, with no line cut at the current offset. */
  lemma {:induction false} DeliversEachLineOnce(w: World, es: seq<Event>)
    requires Following(w.t, w.f) && AppendOnly(es)
    ensures var r := Run(w, es);
      && w.f.data <= r.f.data && w.t.offset <= r.t.offset <= |r.f.data|
      && PassOver(r.f.data[w.t.offset..r.t.offset]) == Pass(LinesOf(r.f.data[w.t.offset..r.t.offset]), [])
      && r.delivered == w.delivered + LinesOf(r.f.data[w.t.offset..r.t.offset])
    ensures Exact(Run(w, es), w.t.offset, w.delivered)
  {
    if es == [] {
      assert w.f.data[w.t.offset..w.t.offset] == [];
      assert w.delivered + [] == w.delivered;
    } else {
      AppendOnlyFront(es);
      DeliversEachLineOnce(w, es[..|es| - 1]);
      StepStaysExact(Run(w, es[..|es| - 1]), es[|es| - 1], w.t.offset, w.delivered);
    }
  }

  // ------------------------------------------------- rotation and truncation

  /** The bytes from..to of one generation of the file, read line by line. */
  datatype Part = Part(data: Bytes, from: nat, to: nat)

  predicate PartOk(p: Part) {
    p.from <= p.to <= |p.data| && PassOver(p.data[p.from..p.to]).partial == []
  }

  function PartLines(p: Part): seq<Bytes> {
    if p.from <= p.to <= |p.data| then LinesOf(p.data[p.from..p.to]) else []
  }

  function AllLines(ps: seq<Part>): seq<Bytes> {
    if ps == [] then [] else AllLines(ps[..|ps| - 1]) + PartLines(ps[|ps| - 1])
  }

  /** Another inode, or less than was read: all the tailer can tell. */
  predicate Noticed(t: State, f: File) { f.inode != t.inode || |f.data| < t.offset }

  /** Whether the file was rotated or truncated since the last poll. */
  predicate Replaced(es: seq<Event>) {
    es != [] && !es[|es| - 1].PollNow? &&
    (es[|es| - 1].Rotate? || es[|es| - 1].Truncate? || Replaced(es[..|es| - 1]))
  }

  /** What a run reads: each generation that a poll sees, from its start when the replacement was
      noticed, otherwise from the old offset on. */
  function Parts(w: World, es: seq<Event>): (ps: seq<Part>)
    ensures ps != []
  {
    if es == [] then [Part(w.f.data, w.t.offset, w.t.offset)]
    else
      var front := es[..|es| - 1];
      var q, ps := Run(w, front), Parts(w, front);
      if es[|es| - 1].PollNow? then
        var to := Poll(q.t, q.f).0.offset;
        if Replaced(front) then ps + [Part(q.f.data, if Noticed(q.t, q.f) then 0 else q.t.offset, to)]
        else ps[..|ps| - 1] + [Part(q.f.data, ps[|ps| - 1].from, to)]
      else ps
  }

  /** What is delivered is what the parts hold; without a replacement the last part is where the tailer is. */
  ghost predicate Covered(w: World, ps: seq<Part>, replaced: bool, earlier: seq<Bytes>) {
    && w.t.seeded && ps != [] && (forall p :: p in ps ==> PartOk(p))
    && w.delivered == earlier + AllLines(ps)
    && (!replaced ==> ps[|ps| - 1].data <= w.f.data && ps[|ps| - 1].to == w.t.offset && w.t.inode == w.f.inode)
  }

  lemma SnocPart(ps: seq<Part>, p: Part)
    ensures AllLines(ps + [p]) == AllLines(ps) + PartLines(p)
  {
    assert (ps + [p])[..|ps|] == ps;
  }

  /** A seeded tailer polls as if it had noticed a replacement before. */
  lemma PollBegins(w: World)
    requires w.t.seeded
    ensures var b := Begun(w.t, w.f);
      && Following(b, w.f) && b.offset == (if Noticed(w.t, w.f) then 0 else w.t.offset)
      && Poll(b, w.f) == Poll(w.t, w.f) && Step(w.(t := b), PollNow) == Step(w, PollNow)
  {
  }

  /** Part p is what was read so far; a chunk read from its end makes it part p'. */
  lemma ReadExtendsPart(w: World, before: seq<Part>, p: Part, earlier: seq<Bytes>)
    requires Following(w.t, w.f) && PartOk(p) && p.data <= w.f.data && p.to == w.t.offset
    requires w.delivered == earlier + AllLines(before + [p])
    ensures var p' := Part(w.f.data, p.from, Read(w).t.offset);
            PartOk(p') && Read(w).delivered == earlier + AllLines(before + [p'])
  {
    var end := w.t.offset + Limit(w.t, w.f);
    var p' := PartReads(p, w.f.data, end);
    var chunk := w.f.data[p.to..end];
    assert chunk == Chunk(w.t, w.f);
    assert Read(w).t.offset == p'.to && Read(w).delivered == w.delivered + LinesOf(chunk);
    PartGrows(before, p, p', LinesOf(w.f.data[p.to..end]), earlier);
  }

  lemma PartReads(p: Part, data: Bytes, end: nat) returns (p': Part)
    requires PartOk(p) && p.data <= data && p.to <= end <= |data|
    ensures p' == Part(data, p.from, p.to + Whole(data[p.to..end])) && PartOk(p')
    ensures PartLines(p') == PartLines(p) + LinesOf(data[p.to..end])
  {
    PrefixSlice(p.data, data, p.from, p.to);
    ChunkExtends(data, p.from, p.to, end);
    p' := Part(data, p.from, p.to + Whole(data[p.to..end]));
  }

  lemma PrefixSlice(a: Bytes, b: Bytes, i: nat, j: nat)
    requires a <= b && i <= j <= |a|
    ensures a[i..j] == b[i..j]
  {
  }

  lemma PartGrows(before: seq<Part>, p: Part, p': Part, lines: seq<Bytes>, earlier: seq<Bytes>)
    requires PartLines(p') == PartLines(p) + lines
    ensures earlier + AllLines(before + [p']) == earlier + AllLines(before + [p]) + lines
  {
    SnocPart(before, p);
    SnocPart(before, p');
    AssocLines(AllLines(before), PartLines(p), lines);
    AssocLines(earlier, AllLines(before + [p]), lines);
  }

  lemma PartsOk(before: seq<Part>, p: Part)
    requires (forall q :: q in before ==> PartOk(q)) && PartOk(p)
    ensures forall q :: q in before + [p] ==> PartOk(q)
  {
  }

  lemma PollExtendsPart(w: World, ps: seq<Part>, earlier: seq<Bytes>)
    requires Covered(w, ps, false, earlier)
    ensures var to := Poll(w.t, w.f).0.offset;
            Covered(Step(w, PollNow), ps[..|ps| - 1] + [Part(w.f.data, ps[|ps| - 1].from, to)], false, earlier)
  {
    var before, p := ps[..|ps| - 1], ps[|ps| - 1];
    assert p in ps && ps == before + [p];
    PollReads(w);
    ReadExtendsPart(w, before, p, earlier);
    PartsOk(before, Part(w.f.data, p.from, Read(w).t.offset));
  }

  lemma PollStartsPart(w: World, ps: seq<Part>, earlier: seq<Bytes>)
    requires Covered(w, ps, true, earlier)
    ensures var to, from := Poll(w.t, w.f).0.offset, if Noticed(w.t, w.f) then 0 else w.t.offset;
            Covered(Step(w, PollNow), ps + [Part(w.f.data, from, to)], false, earlier)
  {
    var b := w.(t := Begun(w.t, w.f));
    var o := b.t.offset;
    var p := Part(w.f.data, o, o);
    PollBegins(w);
    PollReads(b);
    assert w.f.data[o..o] == [];
    SnocPart(ps, p);
    assert AllLines(ps) + [] == AllLines(ps);
    ReadExtendsPart(b, ps, p, earlier);
    PartsOk(ps, Part(w.f.data, o, Read(b).t.offset));
  }

  lemma CoveredAtFirst(w: World)
    requires Following(w.t, w.f)
    ensures Covered(w, [Part(w.f.data, w.t.offset, w.t.offset)], false, w.delivered)
  {
    var p := Part(w.f.data, w.t.offset, w.t.offset);
    assert w.f.data[w.t.offset..w.t.offset] == [];
    SnocPart([], p);
    assert [] + [p] == [p] && AllLines([p]) == [];
  }

  lemma OtherStepsKeepCovered(w: World, e: Event, ps: seq<Part>, replaced: bool, earlier: seq<Bytes>)
    requires Covered(w, ps, replaced, earlier) && !e.PollNow?
    ensures Covered(Step(w, e), ps, e.Rotate? || e.Truncate? || replaced, earlier)
  {
  }

  /** EVERY GENERATION: with any appends, rotations, truncations and polls, the lines delivered are
      those of whole lines read from each generation in turn: all its lines up to the offset when its
      arrival was noticed, those after the old offset when it was not. */
  lemma {:induction false} DeliversEachGeneration(w: World, es: seq<Event>)
    requires Following(w.t, w.f)
    ensures (forall p :: p in Parts(w, es) ==> PartOk(p))
    ensures Run(w, es).delivered == w.delivered + AllLines(Parts(w, es))
    ensures Covered(Run(w, es), Parts(w, es), Replaced(es), w.delivered)
  {
    if es == [] {
      CoveredAtFirst(w);
    } else {
      var front, e := es[..|es| - 1], es[|es| - 1];
      DeliversEachGeneration(w, front);
      if !e.PollNow? {
        OtherStepsKeepCovered(Run(w, front), e, Parts(w, front), Replaced(front), w.delivered);
      } else if Replaced(front) {
        PollStartsPart(Run(w, front), Parts(w, front), w.delivered);
      } else {
        PollExtendsPart(Run(w, front), Parts(w, front), w.delivered);
      }
    }
  }

  /** A truncated file is read from its start again if and only if it is still shorter than the offset
      when it is next polled: the poll then delivers its first lines. One that has regrown by then goes
      unnoticed: the poll delivers what follows the old offset, and the bytes before it are never read. */
  lemma TruncationNoticedIff(w: World, size: nat, bytes: Bytes)
    requires Following(w.t, w.f) && size < |w.f.data| && 0 < w.t.offset
    ensures var r := Run(w, [] + [Truncate(size)] + [Append(bytes)] + [PollNow]);
            var f := File(w.f.inode, w.f.data[..size] + bytes);
            var from := if size + |bytes| < w.t.offset then 0 else w.t.offset;
            var chunk := f.data[from..from + Limit(w.t.(offset := from), f)];
      && r.f == f && r.delivered == w.delivered + LinesOf(chunk)
      && r.t == w.t.(offset := from + Whole(chunk))
  {
    var a := [] + [Truncate(size)];
    var b := a + [Append(bytes)];
    SnocRun(w, [], Truncate(size));
    SnocRun(w, a, Append(bytes));
    SnocRun(w, b, PollNow);
    var q := Run(w, b);
    PollBegins(q);
    PollReads(q.(t := Begun(q.t, q.f)));
  }

  // ------------------------------------------------------------------ progress

  /** A newline among the n bytes at a. */
  predicate HasLF(s: Bytes, a: nat, n: nat)
    requires a + n <= |s|
  {
    exists k :: a <= k < a + n && s[k] == LF
  }

  lemma WholeIff(s: Bytes, a: nat, n: nat)
    requires a + n <= |s|
    ensures Whole(s[a..a + n]) > 0 <==> HasLF(s, a, n)
  {
    var chunk := s[a..a + n];
    WholeIsLastNewline(chunk);
    if Whole(chunk) > 0 {
      assert s[a + Whole(chunk) - 1] == LF;
    }
    if HasLF(s, a, n) {
      var k :| a <= k < a + n && s[k] == LF;
      assert chunk[k - a] == LF;
    }
  }

  /** A poll makes progress exactly when a newline lies within the limit. */
  lemma ProgressIff(t: State, f: File)
    requires Following(t, f)
    ensures Poll(t, f).0.offset > t.offset <==> HasLF(f.data, t.offset, Limit(t, f))
  {
    WholeIff(f.data, t.offset, Limit(t, f));
  }

  lemma NoBoundaryNoLine(s: Bytes)
    requires Whole(s) == 0
    ensures LinesOf(s) == []
  {
    PartialIsSuffix(s);
    assert s[..0] == [];
  }

  /** A chunk without a newline leaves everything as it is. */
  lemma StuckPoll(t: State, f: File)
    requires Following(t, f) && !HasLF(f.data, t.offset, Limit(t, f))
    ensures Poll(t, f) == (t, [])
  {
    WholeIff(f.data, t.offset, Limit(t, f));
    NoBoundaryNoLine(Chunk(t, f));
  }

  /** A line longer than MaxBytes stops the tailer for good: nothing appended after it is ever read. */
  lemma {:induction false} LongLineStopsForever(w: World, es: seq<Event>)
    requires Following(w.t, w.f) && 0 < w.t.maxBytes <= |w.f.data| - w.t.offset
    requires !HasLF(w.f.data, w.t.offset, w.t.maxBytes) && AppendOnly(es)
    ensures Run(w, es).t == w.t && Run(w, es).delivered == w.delivered
    ensures w.f.data <= Run(w, es).f.data && Run(w, es).f.inode == w.f.inode
  {
    if es != [] {
      var q := Run(w, es[..|es| - 1]);
      AppendOnlyFront(es);
      LongLineStopsForever(w, es[..|es| - 1]);
      if es[|es| - 1].PollNow? {
        StuckPoll(q.t, q.f);
        assert w.delivered + [] == w.delivered;
      }
    }
  }

  function Repeat(n: nat): seq<Event> {
    if n == 0 then [] else Repeat(n - 1) + [PollNow]
  }

  lemma RepeatStep(w: World, n: nat)
    requires n > 0
    ensures Run(w, Repeat(n)) == Step(Run(w, Repeat(n - 1)), PollNow)
  {
    assert Repeat(n)[..|Repeat(n)| - 1] == Repeat(n - 1);
  }

  lemma StepPolls(w: World)
    ensures Step(w, PollNow).f == w.f && Step(w, PollNow).t == Poll(w.t, w.f).0
  {
  }

  /** Every line that ends at or before `goal` fits in max bytes with its newline: any max bytes in a
      row contain one. */
  ghost predicate LinesFit(data: Bytes, from: nat, goal: nat, max: nat)
    requires goal <= |data|
  {
    forall i: nat :: from <= i && i + max <= goal ==> HasLF(data, i, max)
  }

  /** Catching up on a file that does not change: `goal` is just after its last newline. */
  ghost predicate CatchingUp(t: State, f: File, goal: nat) {
    && Following(t, f)
    && t.offset <= goal <= |f.data|
    && (goal > t.offset ==> f.data[goal - 1] == LF)
    && (forall k :: goal <= k < |f.data| ==> f.data[k] != LF)
    && (t.maxBytes > 0 ==> LinesFit(f.data, t.offset, goal, t.maxBytes))
  }

  lemma WholeWithinGoal(s: Bytes, a: nat, n: nat, goal: nat)
    requires a <= goal && a + n <= |s| && forall k :: goal <= k < |s| ==> s[k] != LF
    ensures a + Whole(s[a..a + n]) <= goal
  {
    var chunk := s[a..a + n];
    WholeIsLastNewline(chunk);
    if Whole(chunk) > 0 {
      assert s[a + Whole(chunk) - 1] == LF;
    }
  }

  lemma PollKeepsCatchingUp(t: State, f: File, goal: nat)
    requires CatchingUp(t, f, goal)
    ensures CatchingUp(Poll(t, f).0, f, goal)
  {
    var n := Whole(Chunk(t, f));
    WholeWithinGoal(f.data, t.offset, Limit(t, f), goal);
    assert Poll(t, f).0 == t.(offset := t.offset + n);
    if t.maxBytes > 0 {
      assert LinesFit(f.data, t.offset + n, goal, t.maxBytes);
    }
  }

  lemma OnePollAdvances(t: State, f: File, goal: nat)
    requires CatchingUp(t, f, goal)
    ensures CatchingUp(Poll(t, f).0, f, goal)
    ensures t.offset < goal ==> t.offset < Poll(t, f).0.offset
  {
    PollKeepsCatchingUp(t, f, goal);
    ProgressIff(t, f);
    if t.offset < goal {
      if t.offset + Limit(t, f) < goal {
        assert HasLF(f.data, t.offset, t.maxBytes);
      } else {
        assert f.data[goal - 1] == LF;
      }
      assert HasLF(f.data, t.offset, Limit(t, f));
    }
  }

  /** After n polls of a file that does not change: at the goal, or at least n bytes further. */
  ghost predicate Advanced(w: World, r: World, n: nat, goal: nat) {
    && r.f == w.f && CatchingUp(r.t, w.f, goal)
    && (r.t.offset < goal ==> r.t.offset >= w.t.offset + n)
  }

  lemma AdvancedStep(w: World, r: World, n: nat, goal: nat)
    requires Advanced(w, r, n, goal)
    ensures Advanced(w, Step(r, PollNow), n + 1, goal)
  {
    StepPolls(r);
    OnePollAdvances(r.t, w.f, goal);
  }

  lemma {:induction false} PollsCatchUp(w: World, n: nat, goal: nat)
    requires CatchingUp(w.t, w.f, goal)
    ensures Advanced(w, Run(w, Repeat(n)), n, goal)
  {
    if n > 0 {
      PollsCatchUp(w, n - 1, goal);
      RepeatStep(w, n);
      AdvancedStep(w, Run(w, Repeat(n - 1)), n - 1, goal);
    }
  }

  lemma GoalIsLastNewline(t: State, f: File)
    requires Following(t, f)
    ensures var goal := t.offset + Whole(f.data[t.offset..]);
      && goal <= |f.data| && (goal > t.offset ==> f.data[goal - 1] == LF)
      && forall k :: goal <= k < |f.data| ==> f.data[k] != LF
  {
    var rest := f.data[t.offset..];
    WholeIsLastNewline(rest);
    forall k | t.offset + Whole(rest) <= k < |f.data|
      ensures f.data[k] != LF
    {
      assert rest[k - t.offset] == f.data[k];
    }
  }

  /** A poll from at or before a window of max bytes without a newline stays at or before it. */
  lemma PollStaysBefore(t: State, f: File, i: nat)
    requires Following(t, f) && 0 < t.maxBytes && t.offset <= i && i + t.maxBytes <= |f.data|
    requires !HasLF(f.data, i, t.maxBytes)
    ensures Poll(t, f).0.offset <= i
  {
    var chunk := Chunk(t, f);
    var n := Whole(chunk);
    WholeIsLastNewline(chunk);
    if n > 0 {
      assert f.data[t.offset + n - 1] == chunk[n - 1] == LF;
      assert !(i <= t.offset + n - 1 < i + t.maxBytes);
    }
  }

  /** The same file, and still at or before i. */
  predicate StaysBefore(w: World, r: World, i: nat) {
    r.f == w.f && Following(r.t, r.f) && r.t.maxBytes == w.t.maxBytes && r.t.offset <= i
  }

  lemma PollKeepsBefore(w: World, q: World, i: nat)
    requires StaysBefore(w, q, i) && 0 < w.t.maxBytes && i + w.t.maxBytes <= |w.f.data|
    requires !HasLF(w.f.data, i, w.t.maxBytes)
    ensures StaysBefore(w, Step(q, PollNow), i)
  {
    PollReads(q);
    PollStaysBefore(q.t, q.f, i);
  }

  lemma {:induction false} PollsStayBefore(w: World, n: nat, i: nat)
    requires StaysBefore(w, w, i) && 0 < w.t.maxBytes && i + w.t.maxBytes <= |w.f.data|
    requires !HasLF(w.f.data, i, w.t.maxBytes)
    ensures StaysBefore(w, Run(w, Repeat(n)), i)
  {
    if n > 0 {
      PollsStayBefore(w, n - 1, i);
      RepeatStep(w, n);
      PollKeepsBefore(w, Run(w, Repeat(n - 1)), i);
    }
  }

  /** CATCHING UP: polls of a file that does not change ever reach its last newline if and only if every
      line up to there fits in MaxBytes, or there is no limit; and then as many polls as there are bytes
      left are enough. */
  lemma PollsReachLastNewline(w: World)
    requires Following(w.t, w.f)
    ensures var goal, max := w.t.offset + Whole(w.f.data[w.t.offset..]), w.t.maxBytes;
            var fits := max > 0 ==> LinesFit(w.f.data, w.t.offset, goal, max);
      && ((exists n: nat :: Run(w, Repeat(n)).t.offset == goal) <==> fits)
      && (fits ==> forall n: nat :: n >= |w.f.data| - w.t.offset ==> Run(w, Repeat(n)).t.offset == goal)
  {
    var goal, max := w.t.offset + Whole(w.f.data[w.t.offset..]), w.t.maxBytes;
    GoalIsLastNewline(w.t, w.f);
    if max > 0 && !LinesFit(w.f.data, w.t.offset, goal, max) {
      var i: nat :| w.t.offset <= i && i + max <= goal && !HasLF(w.f.data, i, max);
      forall n: nat
        ensures Run(w, Repeat(n)).t.offset != goal
      {
        PollsStayBefore(w, n, i);
      }
    } else {
      forall n: nat | n >= |w.f.data| - w.t.offset
        ensures Run(w, Repeat(n)).t.offset == goal
      {
        PollsCatchUp(w, n, goal);
      }
      assert Run(w, Repeat(|w.f.data| - w.t.offset)).t.offset == goal;
    }
  }

  // ------------------------------------------- where a tailer starts and resumes

  lemma OneByteLine(part: Bytes)
    requires forall k :: 0 <= k < |part| ==> part[k] != LF
    ensures LinesOf(part + [A] + [LF]) == [part + [A]]
  {
    var line := part + [A];
    OneLine(line);
    assert (line + [LF])[..|line|] == line;
    assert Trim(line + [LF]) == line;
  }

  lemma MidLine(done: Bytes, part: Bytes)
    requires PassOver(done).partial == [] && forall k :: 0 <= k < |part| ==> part[k] != LF
    ensures LinesOf(done + part + A_LINE) == LinesOf(done) + [part + [A]]
  {
    assert done + part + A_LINE == done + (part + A_LINE) && part + A_LINE == part + [A] + [LF];
    PassConcat(done, part + A_LINE);
    OneByteLine(part);
  }

  const A_LINE: Bytes := [A] + [LF]

  lemma MidLineDiffers(pre: Bytes)
    requires Whole(pre) < |pre|
    ensures LinesOf(pre + A_LINE) != LinesOf(pre) + LinesOf(A_LINE)
  {
    var done, part := pre[..Whole(pre)], pre[Whole(pre)..];
    WholeIsLastNewline(pre);
    assert pre == done + part;
    MidLine(done, part);
    OneByteLine([]);
    assert A_LINE == [] + [A] + [LF];
    var ls := LinesOf(pre);
    assert (ls + [part + [A]])[|ls|] != (ls + [[] + [A]])[|ls|];
  }

  /** A new tailer, set like the old one, to which the old one's position is restored. */
  function Resumed(t: State): State { t.(seeded := t.inode != 0) }

  /** True of a new tailer and kept by restoring and polling: an unseeded one knows no inode. */
  predicate Sound(t: State) { t.seeded || t.inode == 0 }

  lemma ResumedIsRestored(t: State, made: State)
    requires made.startAtEnd == t.startAtEnd && made.maxBytes == t.maxBytes
    ensures made.(offset := t.offset, inode := t.inode, seeded := t.inode != 0) == Resumed(t)
    ensures Sound(Resumed(t)) && forall f :: Sound(Poll(t, f).0)
  {
  }

  /** On every continuation the two deliver the same. */
  ghost predicate SameFrom(w: World, v: World) {
    forall es :: Run(w, es).delivered == Run(v, es).delivered
  }

  /** The same while the file is only appended to. */
  ghost predicate SameWhileGrowing(w: World, v: World) {
    forall es :: AppendOnly(es) ==> Run(w, es).delivered == Run(v, es).delivered
  }

  lemma {:induction false} RunConcat(w: World, a: seq<Event>, b: seq<Event>)
    ensures Run(w, a + b) == Run(Run(w, a), b)
  {
    if b == [] {
      assert a + b == a;
    } else {
      RunConcat(w, a, b[..|b| - 1]);
      assert (a + b)[..|a + b| - 1] == a + b[..|b| - 1];
    }
  }

  lemma SnocRun(w: World, es: seq<Event>, e: Event)
    ensures Run(w, es + [e]) == Step(Run(w, es), e)
  {
    assert (es + [e])[..|es|] == es;
  }

  lemma OneByteNoLine(s: Bytes)
    requires |s| <= 1
    ensures LinesOf(s) == []
  {
    if s != [] {
      assert s[..0] == [] && PassOver([]) == Pass([], []);
      assert [] + [LF] == [LF] && Trim([LF]) == Trim([LF][..0]) == [];
    }
  }

  /** A tailer limited to one byte a poll reads newlines only. */
  lemma {:induction false} OneByteDeliversNothing(w: World, es: seq<Event>)
    requires w.t.maxBytes == 1
    ensures Run(w, es).delivered == w.delivered && Run(w, es).t.maxBytes == 1
  {
    if es != [] {
      var q := Run(w, es[..|es| - 1]);
      OneByteDeliversNothing(w, es[..|es| - 1]);
      if es[|es| - 1].PollNow? && (q.t.seeded || !q.t.startAtEnd) {
        OneByteNoLine(Chunk(Begun(q.t, q.f), q.f));
      }
      assert q.delivered + [] == q.delivered;
    }
  }

  ghost predicate Stalled(w: World) { Following(w.t, w.f) && !HasLF(w.f.data, w.t.offset, Limit(w.t, w.f)) }

  predicate AtEnd(w: World) { Following(w.t, w.f) && w.t.offset == |w.f.data| }

  /** The file ends in an unfinished line, of which the tailer has not read the end. */
  predicate Unfinished(w: World) {
    Following(w.t, w.f) && w.t.offset < |w.f.data| && w.f.data[|w.f.data| - 1] == A
  }

  predicate AllPolls(es: seq<Event>) { forall e :: e in es ==> e.PollNow? }

  lemma PollKeepsUnfinished(w: World)
    requires Unfinished(w)
    ensures Step(w, PollNow) == Read(w) && Unfinished(Read(w))
    ensures Stalled(w) || Read(w).t.offset > w.t.offset
  {
    var data, o, n := w.f.data, w.t.offset, Limit(w.t, w.f);
    PollReads(w);
    WholeIff(data, o, n);
    NotToAnUnfinishedEnd(data, o, n);
  }

  lemma NotToAnUnfinishedEnd(s: Bytes, a: nat, n: nat)
    requires a + n <= |s| && a < |s| && s[|s| - 1] == A
    ensures a + Whole(s[a..a + n]) < |s|
  {
    var chunk := s[a..a + n];
    WholeIsLastNewline(chunk);
    if Whole(chunk) > 0 {
      assert s[a + Whole(chunk) - 1] == LF;
    }
  }

  lemma OneEvent(w: World, e: Event)
    ensures Run(w, [e]) == Step(w, e)
  {
    assert [e][..0] == [];
  }

  /** Enough polls of a file that does not change end where no newline is within the limit. */
  lemma {:induction false} PollsUntilStalled(w: World) returns (es: seq<Event>)
    requires Unfinished(w)
    ensures AllPolls(es) && Stalled(Run(w, es)) && Unfinished(Run(w, es))
    ensures Run(w, es).f == w.f && Run(w, es).t.maxBytes == w.t.maxBytes
    decreases |w.f.data| - w.t.offset
  {
    es := [];
    if !Stalled(w) {
      PollKeepsUnfinished(w);
      var rest := PollsUntilStalled(Read(w));
      OneEvent(w, PollNow);
      RunConcat(w, [PollNow], rest);
      es := [PollNow] + rest;
    }
  }

  lemma PollAtEnd(w: World)
    requires AtEnd(w)
    ensures Step(w, PollNow) == w
  {
    PollReads(w);
    NothingNew(w.t, w.f);
    assert w.delivered + [] == w.delivered;
  }

  lemma {:induction false} PollsAtEnd(w: World, es: seq<Event>)
    requires AtEnd(w) && AllPolls(es)
    ensures Run(w, es) == w
  {
    if es != [] {
      assert es[|es| - 1] in es;
      PollsAtEnd(w, es[..|es| - 1]);
      PollAtEnd(w);
    }
  }

  function More(x: Bytes): seq<Event> { [Append(x)] + [PollNow] }

  /** A poll after new bytes, when all of them are within the limit. */
  lemma PollMore(w: World, x: Bytes)
    requires Following(w.t, w.f)
    requires w.t.maxBytes <= 0 || |w.f.data| + |x| - w.t.offset <= w.t.maxBytes
    ensures var r, read := Run(w, More(x)), w.f.data[w.t.offset..] + x;
      && r.delivered == w.delivered + LinesOf(read) && r.t.offset == w.t.offset + Whole(read)
      && r.f.data == w.f.data + x
  {
    var v := Step(w, Append(x));
    OneEvent(w, Append(x));
    SnocRun(w, [Append(x)], PollNow);
    PollReads(v);
    assert Chunk(v.t, v.f) == w.f.data[w.t.offset..] + x;
  }

  /** Finishing the line delivers it. */
  lemma FinishedLine(part: Bytes)
    requires part != [] && part[|part| - 1] == A && forall k :: 0 <= k < |part| ==> part[k] != LF
    ensures LinesOf(part + [LF]) == [part]
  {
    OneLine(part);
    assert (part + [LF])[..|part|] == part;
    assert Trim(part + [LF]) == part;
  }

  lemma ALineIsOne()
    ensures LinesOf([] + A_LINE) == [[A]] && LinesOf([] + [LF]) == []
  {
    assert [] + A_LINE == [A] + [LF];
    FinishedLine([A]);
    OneByteNoLine([] + [LF]);
  }

  /** One tailer stalled in an unfinished line and one past it, on the same file. */
  ghost predicate Apart(w: World, v: World) {
    && Stalled(w) && Unfinished(w) && AtEnd(v) && v.f == w.f
    && v.t.maxBytes == w.t.maxBytes != 1 && v.delivered == w.delivered
  }

  lemma LongLineDiffers(w: World, v: World)
    requires Apart(w, v) && 0 < w.t.maxBytes <= |w.f.data| - w.t.offset
    ensures Run(w, More(A_LINE)).delivered != Run(v, More(A_LINE)).delivered
  {
    ALineIsOne();
    assert v.f.data[v.t.offset..] == [];
    LongLineStopsForever(w, More(A_LINE));
    PollMore(v, A_LINE);
  }

  lemma LineEndDiffers(w: World, v: World)
    requires Apart(w, v) && !(0 < w.t.maxBytes <= |w.f.data| - w.t.offset)
    ensures Run(w, More([LF])).delivered != Run(v, More([LF])).delivered
  {
    var rest := w.f.data[w.t.offset..];
    ALineIsOne();
    assert v.f.data[v.t.offset..] == [];
    forall k | 0 <= k < |rest|
      ensures rest[k] != LF
    {
      assert rest[k] == w.f.data[w.t.offset + k];
    }
    FinishedLine(rest);
    PollMore(w, [LF]);
    PollMore(v, [LF]);
    assert |w.delivered + [rest]| == |v.delivered + []| + 1;
  }

  lemma StalledDiffers(w: World, v: World) returns (es: seq<Event>)
    requires Apart(w, v)
    ensures AppendOnly(es) && Run(w, es).delivered != Run(v, es).delivered
  {
    if 0 < w.t.maxBytes <= |w.f.data| - w.t.offset {
      LongLineDiffers(w, v);
      es := More(A_LINE);
    } else {
      LineEndDiffers(w, v);
      es := More([LF]);
    }
  }

  /** From an unfinished line on, a tailer and one that skipped it come to differ. */
  lemma UnfinishedDiffers(w: World, v: World) returns (es: seq<Event>)
    requires Unfinished(w) && AtEnd(v) && v.f == w.f && v.t.maxBytes == w.t.maxBytes != 1
    ensures AppendOnly(es) && Run(w, es).delivered != Run(v, es).delivered
  {
    es := PollsUntilStalled(w);
    PollsAtEnd(v, es);
    if Run(w, es).delivered == v.delivered {
      var more := StalledDiffers(Run(w, es), v);
      RunConcat(w, es, more);
      RunConcat(v, es, more);
      es := es + more;
    }
  }

  /** Bytes that bring the file past the old offset and leave it in an unfinished line. */
  function Gap(n: nat): Bytes { seq(n, _ => A) + [A] }

  lemma RestoredSkipsGap(w: World)
    requires w.t.seeded && w.t.inode == 0 && w.t.startAtEnd
    ensures var v, r := w.(t := Resumed(w.t)), Run(w, More(Gap(w.t.offset)));
      && Unfinished(r) && r.t.maxBytes == w.t.maxBytes
      && AtEnd(Run(v, More(Gap(w.t.offset)))) && Run(v, More(Gap(w.t.offset))).f == r.f
      && Run(v, More(Gap(w.t.offset))).t.maxBytes == w.t.maxBytes
  {
    var gap, v := Gap(w.t.offset), w.(t := Resumed(w.t));
    var q := Step(w, Append(gap));
    var b := q.(t := Begun(q.t, q.f));
    OneEvent(w, Append(gap));
    OneEvent(v, Append(gap));
    SnocRun(w, [Append(gap)], PollNow);
    SnocRun(v, [Append(gap)], PollNow);
    PollBegins(q);
    PollKeepsUnfinished(b);
  }

  /** The lines of the file up to the offset are those before the start and those delivered. */
  ghost predicate OwnLines(r: World, before: seq<Bytes>) {
    r.t.offset <= |r.f.data| && LinesOf(r.f.data[..r.t.offset]) == before + r.delivered
  }

  /** While the file grows, what the tailer delivers are the file's own lines. */
  ghost predicate DeliversOwnLines(w: World, before: seq<Bytes>) {
    forall es :: AppendOnly(es) ==> OwnLines(Run(w, es), before)
  }

  lemma PrefixThenSlice(pre: Bytes, data: Bytes, o: nat)
    requires pre <= data && |pre| <= o <= |data|
    ensures data[..o] == pre + data[|pre|..o]
  {
  }

  lemma EmptyPlus(ls: seq<Bytes>)
    ensures [] + ls == ls && ls + [] == ls
  {
  }

  lemma BoundaryConcat(pre: Bytes, later: Bytes)
    requires Whole(pre) == |pre|
    ensures LinesOf(pre + later) == LinesOf(pre) + LinesOf(later)
  {
    PassConcat(pre, later);
  }

  lemma BoundaryDeliversOwnLines(w: World, es: seq<Event>)
    requires AtEnd(w) && w.delivered == [] && AppendOnly(es) && Whole(w.f.data) == |w.f.data|
    ensures OwnLines(Run(w, es), LinesOf(w.f.data))
  {
    var pre, r := w.f.data, Run(w, es);
    DeliversEachLineOnce(w, es);
    var tail := r.f.data[|pre|..r.t.offset];
    PrefixThenSlice(pre, r.f.data, r.t.offset);
    BoundaryConcat(pre, tail);
    EmptyPlus(LinesOf(tail));
  }

  lemma TrimNewline(s: Bytes)
    ensures Trim(s + [LF]) == Trim(s)
  {
    assert (s + [LF])[..|s|] == s;
  }

  /** A newline after a part that is empty once trimmed completes no line. */
  lemma BlankLine(pre: Bytes)
    ensures LinesOf(pre + [LF]) == LinesOf(pre) + Line(PassOver(pre).partial) && PassOver(pre + [LF]).partial == []
  {
    PassSnoc(pre, LF);
    TrimNewline(PassOver(pre).partial);
  }

  /** The pass has found these lines and what is unfinished is empty once trimmed. */
  predicate Blank(s: Bytes, lines: seq<Bytes>) { LinesOf(s) == lines && Trim(PassOver(s).partial) == [] }

  lemma BlankStays(s: Bytes, lines: seq<Bytes>)
    requires Blank(s, lines)
    ensures Blank(s + [LF], lines)
  {
    BlankLine(s);
    EmptyPlus(lines);
  }

  lemma {:induction false} BlankLines(pre: Bytes, lfs: Bytes, lines: seq<Bytes>)
    requires Blank(pre, lines) && forall k :: 0 <= k < |lfs| ==> lfs[k] == LF
    ensures Blank(pre + lfs, lines)
  {
    if lfs == [] {
      assert pre + lfs == pre;
    } else {
      var n := |lfs| - 1;
      BlankLines(pre, lfs[..n], lines);
      BlankStays(pre + lfs[..n], lines);
      assert pre + lfs == pre + lfs[..n] + [LF];
    }
  }

  lemma OneBytePoll(w: World)
    requires Following(w.t, w.f) && w.t.maxBytes == 1
    ensures Step(w, PollNow) == w || (w.t.offset < |w.f.data| && w.f.data[w.t.offset] == LF
                                      && Step(w, PollNow) == w.(t := w.t.(offset := w.t.offset + 1)))
  {
    var chunk := Chunk(w.t, w.f);
    PollReads(w);
    OneByteNoLine(chunk);
    WholeIsLastNewline(chunk);
    assert w.delivered + [] == w.delivered;
  }

  /** From w to r nothing was delivered and only newlines were passed. */
  ghost predicate PassedNewlines(w: World, r: World) {
    && Following(r.t, r.f) && r.t.maxBytes == 1 && w.f.data <= r.f.data && w.t.offset <= r.t.offset
    && r.delivered == w.delivered
    && forall k :: w.t.offset <= k < r.t.offset ==> r.f.data[k] == LF
  }

  lemma OneByteAppend(w: World, r: World, x: Bytes)
    requires PassedNewlines(w, r)
    ensures PassedNewlines(w, Step(r, Append(x)))
  {
    var data, data' := r.f.data, Step(r, Append(x)).f.data;
    assert data <= data';
    forall k | w.t.offset <= k < r.t.offset
      ensures data'[k] == LF
    {
      assert data'[k] == data[k];
    }
  }

  lemma OneByteStep(w: World, r: World, e: Event)
    requires PassedNewlines(w, r) && (e.Append? || e.PollNow?)
    ensures PassedNewlines(w, Step(r, e))
  {
    if e.Append? {
      OneByteAppend(w, r, e.bytes);
    } else {
      OneBytePoll(r);
      assert Step(r, e).f == r.f && Step(r, e).delivered == r.delivered;
    }
  }

  /** A tailer limited to one byte passes over newlines only. */
  lemma {:induction false} OneBytePassesNewlines(w: World, es: seq<Event>)
    requires Following(w.t, w.f) && w.t.maxBytes == 1 && AppendOnly(es)
    ensures PassedNewlines(w, Run(w, es))
  {
    if es != [] {
      AppendOnlyFront(es);
      OneBytePassesNewlines(w, es[..|es| - 1]);
      OneByteStep(w, Run(w, es[..|es| - 1]), es[|es| - 1]);
    }
  }

  lemma BlankDeliversOwnLines(w: World, es: seq<Event>)
    requires AtEnd(w) && w.delivered == [] && AppendOnly(es) && w.t.maxBytes == 1
    requires Trim(PassOver(w.f.data).partial) == []
    ensures OwnLines(Run(w, es), LinesOf(w.f.data))
  {
    var pre, r := w.f.data, Run(w, es);
    OneBytePassesNewlines(w, es);
    PrefixThenSlice(pre, r.f.data, r.t.offset);
    var lfs := r.f.data[|pre|..r.t.offset];
    forall k | 0 <= k < |lfs|
      ensures lfs[k] == LF
    {
      assert lfs[k] == r.f.data[|pre| + k];
    }
    BlankLines(pre, lfs, LinesOf(pre));
    EmptyPlus(LinesOf(pre));
  }

  lemma OwnLinesAtEnd(r: World, before: seq<Bytes>)
    requires r.t.offset == |r.f.data|
    ensures OwnLines(r, before) <==> LinesOf(r.f.data) == before + r.delivered
  {
    assert r.f.data[..r.t.offset] == r.f.data;
  }

  /** New bytes that end in a newline, all within the limit, are delivered by the next poll. */
  lemma MoreAtEnd(w: World, x: Bytes)
    requires AtEnd(w) && w.delivered == [] && x != [] && x[|x| - 1] == LF
    requires w.t.maxBytes <= 0 || |x| <= w.t.maxBytes
    ensures OwnLines(Run(w, More(x)), LinesOf(w.f.data)) <==>
            LinesOf(w.f.data + x) == LinesOf(w.f.data) + LinesOf(x)
  {
    var r := Run(w, More(x));
    PollMore(w, x);
    assert w.f.data[w.t.offset..] + x == x;
    EmptyPlus(LinesOf(x));
    WholeIsLastNewline(x);
    assert r.t.offset == |r.f.data| && r.delivered == LinesOf(x);
    OwnLinesAtEnd(r, LinesOf(w.f.data));
  }

  /** The tail of a cut line is delivered as a line. */
  lemma CutLineIsDelivered(w: World)
    requires AtEnd(w) && w.delivered == [] && w.t.maxBytes != 1 && Whole(w.f.data) < |w.f.data|
    ensures !OwnLines(Run(w, More(A_LINE)), LinesOf(w.f.data))
  {
    MoreAtEnd(w, A_LINE);
    MidLineDiffers(w.f.data);
  }

  /** The end of a cut line is passed over without delivering anything. */
  lemma CutLineIsDropped(w: World)
    requires AtEnd(w) && w.delivered == [] && w.t.maxBytes == 1 && Trim(PassOver(w.f.data).partial) != []
    ensures !OwnLines(Run(w, More([LF])), LinesOf(w.f.data))
  {
    MoreAtEnd(w, [LF]);
    BlankLine(w.f.data);
    OneByteNoLine([LF]);
  }

  /** STARTING AT THE END: after its first poll, a new tailer delivers the file's own lines while the
      file grows if and only if the file then ended at a line boundary (with a limit of one byte, which
      delivers nothing: if and only if the unfinished line was blank). Otherwise it delivers the tail of
      a line that was cut, as a line. */
  lemma StartsOnLineIff(new_: World)
    requires !new_.t.seeded && new_.t.startAtEnd && new_.delivered == []
    ensures var pre := new_.f.data;
            DeliversOwnLines(Step(new_, PollNow), LinesOf(pre)) <==>
            Whole(pre) == |pre| || (new_.t.maxBytes == 1 && Trim(PassOver(pre).partial) == [])
  {
    var w, pre := Step(new_, PollNow), new_.f.data;
    FirstPollFollows(new_.t, new_.f);
    assert AtEnd(w) && w.delivered == [] && w.f.data == pre;
    if Whole(pre) == |pre| {
      forall es | AppendOnly(es)
        ensures OwnLines(Run(w, es), LinesOf(pre))
      {
        BoundaryDeliversOwnLines(w, es);
      }
    } else if w.t.maxBytes != 1 {
      CutLineIsDelivered(w);
      assert AppendOnly(More(A_LINE));
    } else if Trim(PassOver(pre).partial) != [] {
      CutLineIsDropped(w);
      assert AppendOnly(More([LF]));
    } else {
      forall es | AppendOnly(es)
        ensures OwnLines(Run(w, es), LinesOf(pre))
      {
        BlankDeliversOwnLines(w, es);
      }
    }
  }

  /** A tailer that does not start at the end reads from the start again, unless it was there anyway. */
  lemma {:induction false} FromTheStartAnyway(w: World, es: seq<Event>)
    requires w.t.seeded && w.t.inode == 0 && !w.t.startAtEnd && w.t.offset == 0
    ensures var v, r := w.(t := Resumed(w.t)), Run(w, es);
            Run(v, es) == r || (r.t == w.t && Run(v, es) == r.(t := v.t))
  {
    if es != [] {
      FromTheStartAnyway(w, es[..|es| - 1]);
    }
  }

  /** A line, and as much more as makes the file as long as what was read before. */
  function LineUpTo(n: nat): Bytes { A_LINE + seq(if n > 2 then n - 2 else 0, _ => A) }

  lemma LineUpToDelivers(n: nat, k: nat)
    requires 2 <= k <= |LineUpTo(n)|
    ensures LinesOf(LineUpTo(n)[..k]) == [[A]]
  {
    var part := LineUpTo(n)[2..k];
    assert LineUpTo(n)[..k] == [A] + [LF] + part;
    FirstLine([A], part);
    NoNewlineNoLine(part);
    FinishedLine([A]);
    OneLine([A]);
    assert Line([A] + [LF]) + [] == Line([A] + [LF]);
  }

  lemma ReplayDiffers(w: World) returns (es: seq<Event>)
    requires w.t.seeded && w.t.inode == 0 && !w.t.startAtEnd && w.t.offset > 0 && w.t.maxBytes != 1
    ensures Run(w, es).delivered != Run(w.(t := Resumed(w.t)), es).delivered
  {
    var n, v := w.t.offset, w.(t := Resumed(w.t));
    var f := File(0, LineUpTo(n));
    es := [Rotate(f)] + [PollNow];
    OneEvent(w, Rotate(f));
    OneEvent(v, Rotate(f));
    SnocRun(w, [Rotate(f)], PollNow);
    SnocRun(v, [Rotate(f)], PollNow);
    var w', v' := w.(f := f), v.(f := f);
    PollReads(w');
    assert |Chunk(w'.t, f)| <= 1;
    OneByteNoLine(Chunk(w'.t, f));
    var b := Begun(v.t, f);
    assert Chunk(b, f) == f.data[..Limit(b, f)];
    LineUpToDelivers(n, Limit(b, f));
    assert |w.delivered + []| != |w.delivered + [[A]]|;
  }

  lemma GrowthDiffers(w: World) returns (es: seq<Event>)
    requires w.t.seeded && w.t.inode == 0 && w.t.startAtEnd && w.t.maxBytes != 1
    ensures AppendOnly(es) && Run(w, es).delivered != Run(w.(t := Resumed(w.t)), es).delivered
  {
    var gap, v := More(Gap(w.t.offset)), w.(t := Resumed(w.t));
    RestoredSkipsGap(w);
    var rest := UnfinishedDiffers(Run(w, gap), Run(v, gap));
    RunConcat(w, gap, rest);
    RunConcat(v, gap, rest);
    es := gap + rest;
  }

  /** When a new tailer restored to a saved position is as good as the old one. */
  predicate Resumes(t: State) {
    t.inode != 0 || !t.seeded || t.maxBytes == 1 || (!t.startAtEnd && t.offset == 0)
  }

  /** RESUMING: a new tailer restored to a saved position delivers what the old one would have, on every
      continuation, if and only if the inode saved was not 0 or nothing had been polled yet (or a limit
      of one byte lets neither deliver anything, or both read from the start). Otherwise one that starts
      at the end skips what was written in between, even if the file only grows. */
  lemma RestoreResumesIff(w: World, made: State)
    requires Sound(w.t) && made.startAtEnd == w.t.startAtEnd && made.maxBytes == w.t.maxBytes
    ensures var v := w.(t := made.(offset := w.t.offset, inode := w.t.inode, seeded := w.t.inode != 0));
      && (SameFrom(w, v) <==> Resumes(w.t))
      && (w.t.startAtEnd ==> (SameWhileGrowing(w, v) <==> Resumes(w.t)))
  {
    var v := w.(t := Resumed(w.t));
    ResumedIsRestored(w.t, made);
    if Resumes(w.t) {
      forall es
        ensures Run(w, es).delivered == Run(v, es).delivered
      {
        if w.t.maxBytes == 1 {
          OneByteDeliversNothing(w, es);
          OneByteDeliversNothing(v, es);
        } else if w.t.inode == 0 && w.t.seeded {
          FromTheStartAnyway(w, es);
        }
      }
    } else if w.t.startAtEnd {
      var es := GrowthDiffers(w);
      assert Run(w, es).delivered != Run(v, es).delivered;
    } else {
      var es := ReplayDiffers(w);
    }
  }
}
