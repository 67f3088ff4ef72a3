/**
 Checking in large files straight into a pack (git-2.15.0/bulk-checkin.c).  The compressor may cut its
 output anywhere: what it does at every call is an arbitrary answer, out of a list that may run out.
 */
module BulkCheckin {

  datatype Option<+T> = None | Some(value: T)

  type Byte = b: int | 0 <= b < 256 witness 0

  /** Both buffers of stream_to_pack. */
  const BUFSIZE: nat := 16384

  const U32: int := 0x1_0000_0000

  /** struct pack_idx_entry; object names are numbers. */
  datatype Idx = Idx(oid: nat, offset: nat)

  /** A finished pack, without the checksum at its end. */
  datatype Pack = Pack(bytes: seq<Byte>, entries: seq<Idx>)

  /** How stream_to_pack ends: all streamed, over the size limit, or the program died. */
  datatype Outcome = Done | TooBig | Died

  ghost function Flat(bodies: seq<seq<Byte>>): seq<Byte> {
    if bodies == [] then [] else Flat(bodies[..|bodies| - 1]) + bodies[|bodies| - 1]
  }

  /** The twelve bytes at the beginning of a pack of n objects. */
  function PackHeader(n: nat): (h: seq<Byte>)
    ensures |h| == 12
  {
    var m := n % U32;
    [80, 65, 67, 75, 0, 0, 0, 2, m / 0x100_0000, m / 0x1_0000 % 256, m / 256 % 256, m % 256]
  }

  /** The number of four bytes, the highest first. */
  function Number4(a: int, b: int, c: int, d: int): int { ((a * 256 + b) * 256 + c) * 256 + d }

  /** The header spells PACK, and then has two numbers of four bytes, the highest first: the version and the count. */
  lemma PackHeaderIs(n: nat)
    requires n < 0x1_0000_0000
    ensures var h := PackHeader(n);
      && h[0] == 'P' as int && h[1] == 'A' as int && h[2] == 'C' as int && h[3] == 'K' as int
      && Number4(h[4], h[5], h[6], h[7]) == 2 && Number4(h[8], h[9], h[10], h[11]) == n
  {
    FourBytes(n);
  }

  lemma FourBytes(n: nat)
    requires n < 0x1_0000_0000
    ensures n % 0x1_0000_0000 == n && Number4(n / 0x100_0000, n / 0x1_0000 % 256, n / 256 % 256, n % 256) == n
  {
    var a, b := n / 256, n / 0x1_0000;
    assert b == a / 256 && n / 0x100_0000 == b / 256;
  }

  /** Where the entries of a pack begin. */
  ghost predicate Indexed(entries: seq<Idx>, bodies: seq<seq<Byte>>) {
    |entries| == |bodies| && forall i :: 0 <= i < |entries| ==> entries[i].offset == 12 + |Flat(bodies[..i])|
  }

  ghost predicate DistinctNames(entries: seq<Idx>) {
    forall i, j :: 0 <= i < j < |entries| ==> entries[i].oid != entries[j].oid
  }

  ghost function Names(entries: seq<Idx>): set<nat> {
    set i | 0 <= i < |entries| :: entries[i].oid
  }

  /** A position where a read of stream_to_pack ends. */
  ghost predicate ReadEnd(at: nat, size: nat) {
    at <= size && (at % BUFSIZE == 0 || at == size)
  }

  /** A pack that readers can use: its header has the right count, its index the right places. */
  ghost predicate Sound(p: Pack, bodies: seq<seq<Byte>>) {
    p.entries != [] && p.bytes == PackHeader(|p.entries|) + Flat(bodies) && Indexed(p.entries, bodies)
      && DistinctNames(p.entries)
  }

  /** Reads end at the same places in every try: what was hashed ends where a read ends. */
  lemma NextEnd(at: nat, hashedTo: nat, rsize: nat, size: nat)
    requires at <= hashedTo < at + rsize <= size && rsize <= BUFSIZE && ReadEnd(at, size) && ReadEnd(hashedTo, size)
    ensures hashedTo == at
  {
    if at % BUFSIZE == 0 && hashedTo % BUFSIZE == 0 {
      assert (hashedTo - at) % BUFSIZE == 0;
    }
  }

  lemma Ends(at: nat, size: nat)
    ensures ReadEnd(0, size) && (ReadEnd(at, size) ==> at <= size)
  {
  }

  /** The hash that had taken in ctx has taken in the bytes from a to b of the file since. */
  ghost predicate Absorbed(ctx': seq<Byte>, ctx: seq<Byte>, fd: seq<Byte>, a: nat, b: nat) {
    a <= b <= |fd| && ctx' == ctx + fd[a..b]
  }

  lemma NoneRead(ctx: seq<Byte>, fd: seq<Byte>, a: nat)
    requires a <= |fd|
    ensures Absorbed(ctx, ctx, fd, a, a)
  {
  }

  lemma MoreRead(c0: seq<Byte>, c1: seq<Byte>, c2: seq<Byte>, fd: seq<Byte>, a: nat, b: nat, c: nat)
    requires Absorbed(c1, c0, fd, a, b) && Absorbed(c2, c1, fd, b, c)
    ensures Absorbed(c2, c0, fd, a, c)
  {
  }

  /** So many bytes would make a pack too big that holds objects already. */
  predicate TooMuch(written: seq<Idx>, limit: nat, offset: nat, n: nat) {
    written != [] && limit > 0 && limit < offset + n
  }

  /** Of the body, what came before the buffer that was too much is in the pack, and was not too much itself. */
  ghost predicate CutShort(was: seq<Byte>, now: seq<Byte>, body: seq<Byte>, written: seq<Idx>, limit: nat) {
    var k := |now| - |was|;
    && 0 <= k <= |body| <= k + BUFSIZE && now == was + body[..k]
    && (k == 0 || !TooMuch(written, limit, |was|, k))
  }

  /**
   How far a try has come: it has read up to at, and the hash, which had taken in the file up to start before,
   has taken it in up to hashedTo.
   */
  ghost predicate Reading(ctx': seq<Byte>, ctx: seq<Byte>, fd: seq<Byte>, pos: nat, start: nat, at: nat, size: nat,
                          hashedTo: nat)
  {
    && pos + at <= |fd| && ReadEnd(at, size) && ReadEnd(hashedTo, size) && pos + hashedTo <= |fd|
    && hashedTo == (if at > start then at else start)
    && Absorbed(ctx', ctx, fd, pos + start, pos + hashedTo)
  }

  /** What the compressor does at a call: takes so much input, gives output, fails, or says that it has finished. */
  datatype Answer = Answer(used: nat, output: seq<Byte>, bad: bool, end: bool)

  /** What the compressor has taken in and given out, and in how many calls. */
  datatype Stream = Stream(fed: seq<Byte>, made: seq<Byte>, calls: nat)

  /** The reasons to die: the file is too short, the compressor fails, or there is no answer left. */
  ghost predicate HasToDie(answers: seq<Answer>, calls: nat, fd: seq<Byte>, pos: nat, size: nat) {
    |fd| < pos + size || (exists k :: 0 <= k < calls <= |answers| && answers[k].bad) || calls == |answers|
  }

  /** Both of its buffers. */
  datatype Batch = Batch(input: seq<Byte>, output: seq<Byte>)

  /** What the compressor has taken in, and what waits for it, are the first `at` bytes of the file. */
  ghost predicate Fed(fd: seq<Byte>, pos: nat, at: nat, fed: seq<Byte>, input: seq<Byte>) {
    pos + at <= |fd| && fed + input == fd[pos..pos + at]
  }

  /** The program may die before and after a call if there is reason to. */
  lemma DyingNow(answers: seq<Answer>, calls: nat, fd: seq<Byte>, pos: nat, size: nat)
    ensures calls == |answers| ==> HasToDie(answers, calls, fd, pos, size)
    ensures |fd| < pos + size ==> HasToDie(answers, calls + 1, fd, pos, size)
    ensures calls < |answers| && answers[calls].bad ==> HasToDie(answers, calls + 1, fd, pos, size)
  {
  }

  /** The body so far and the output buffer are the header and what the compressor has given. */
  ghost predicate Made(header: seq<Byte>, s: Stream, body: seq<Byte>, obuf: seq<Byte>) {
    body + obuf == header + s.made
  }

  lemma MadeFlushed(header: seq<Byte>, s: Stream, body: seq<Byte>, obuf: seq<Byte>)
    requires Made(header, s, body, obuf)
    ensures Made(header, s, body + obuf, [])
  {
  }

  lemma MadeAll(header: seq<Byte>, s: Stream, body: seq<Byte>)
    requires Made(header, s, body, [])
    ensures body == header + s.made
  {
    assert body + [] == body;
  }

  lemma CutIs(was: seq<Byte>, body: seq<Byte>, obuf: seq<Byte>, written: seq<Idx>, limit: nat)
    requires |obuf| <= BUFSIZE && (body != [] ==> !TooMuch(written, limit, |was|, |body|))
    ensures CutShort(was, was + body, body + obuf, written, limit)
  {
    hide TooMuch;
    assert (body + obuf)[..|body|] == body;
  }

  lemma NothingFed(fd: seq<Byte>, pos: nat, header: seq<Byte>)
    requires pos <= |fd|
    ensures Fed(fd, pos, 0, [], []) && Made(header, Stream([], [], 0), [], header)
  {
  }

  /** One call of the compressor. */
  lemma MoreFed(fd: seq<Byte>, pos: nat, at: nat, s: Stream, more: Stream, was: Batch, now: Batch, header: seq<Byte>,
                body: seq<Byte>)
    requires Fed(fd, pos, at, s.fed, was.input)
    requires was.input == more.fed + now.input && now.output == was.output + more.made
    ensures Fed(fd, pos, at, s.fed + more.fed, now.input)
    ensures forall n :: Made(header, s, body, was.output) ==>
      Made(header, Stream(s.fed + more.fed, s.made + more.made, n), body, now.output)
  {
    assert s.fed + (more.fed + now.input) == (s.fed + more.fed) + now.input;
    assert body + now.output == (body + was.output) + more.made;
    assert (header + s.made) + more.made == header + (s.made + more.made);
  }

  lemma PieceFed(fd: seq<Byte>, pos: nat, at: nat, fed: seq<Byte>, ibuf: seq<Byte>)
    requires Fed(fd, pos, at, fed, []) && pos + at + |ibuf| <= |fd| && ibuf == fd[pos + at..pos + at + |ibuf|]
    ensures Fed(fd, pos, at + |ibuf|, fed, ibuf)
  {
    assert fed + [] == fed;
    assert fd[pos..pos + at + |ibuf|] == fd[pos..pos + at] + ibuf;
  }

  lemma AllFed(fd: seq<Byte>, pos: nat, at: nat, fed: seq<Byte>)
    requires Fed(fd, pos, at, fed, [])
    ensures pos + at <= |fd| && fed == fd[pos..pos + at]
  {
    assert fed + [] == fed;
  }

  lemma ReadingStart(ctx: seq<Byte>, fd: seq<Byte>, pos: nat, start: nat, size: nat)
    requires pos + start <= |fd| && ReadEnd(start, size)
    ensures Reading(ctx, ctx, fd, pos, start, 0, size, start)
  {
    hide Absorbed;
    NoneRead(ctx, fd, pos + start);
  }

  lemma ReadingMeans(ctx': seq<Byte>, ctx: seq<Byte>, fd: seq<Byte>, pos: nat, start: nat, at: nat, size: nat,
                     hashedTo: nat)
    requires Reading(ctx', ctx, fd, pos, start, at, size, hashedTo)
    ensures pos + at <= |fd| && at <= size && start <= hashedTo <= size && ReadEnd(hashedTo, size)
    ensures pos + hashedTo <= |fd| && Absorbed(ctx', ctx, fd, pos + start, pos + hashedTo)
    ensures at == size ==> hashedTo == size
  {
    hide Absorbed;
  }

  lemma AllRead(ctx': seq<Byte>, ctx: seq<Byte>, fd: seq<Byte>, pos: nat, size: nat)
    requires Absorbed(ctx', ctx, fd, pos, pos + size)
    ensures pos + size <= |fd| && ctx' == ctx + fd[pos..pos + size]
  {
  }

  class Checkin {
    /** pack_size_limit_cfg; 0 is no limit. */
    const limit: nat
    const hash: seq<Byte> -> nat
    var plugged: bool
    /** The bytes kept in the temporary pack, if there is one. */
    var f: Option<seq<Byte>>
    var offset: nat
    var written: seq<Idx>
    /** What the repository has: object names, and the packs that were finished here. */
    var repo: set<nat>
    var packs: seq<Pack>
    /** The bytes of each object in the temporary pack. */
    ghost var bodies: seq<seq<Byte>>

    ghost predicate Valid()
      reads this
    {
      && (f.None? ==> offset == 0 && written == [] && bodies == [])
      && (f.Some? ==> f.value == PackHeader(1) + Flat(bodies) && offset == |f.value|)
      && Indexed(written, bodies) && DistinctNames(written)
      && Names(written) !! repo
      && (limit > 0 && |written| >= 2 ==> offset <= limit)
    }

    constructor (limit: nat, hash: seq<Byte> -> nat, repo: set<nat>)
      ensures Valid() && this.limit == limit && this.hash == hash && this.repo == repo
      ensures f.None? && !plugged && packs == []
    {
      this.limit, this.hash, this.repo := limit, hash, repo;
      plugged, f, offset, written, packs, bodies := false, None, 0, [], [], [];
    }

    /**
     finish_bulk_checkin: the pack, if it holds objects, becomes part of the repository, with its final
     header.  Everything is cleared afterwards, plugged included.
     */
    method FinishBulkCheckin()
      requires Valid()
      modifies this
      ensures Valid() && f.None? && written == []
      ensures old(f.None?) ==> plugged == old(plugged)
      ensures old(f.Some?) ==> !plugged
      ensures repo == old(repo) + old(Names(written))
      ensures old(written) == [] ==> packs == old(packs)
      ensures old(written) != [] ==>
        |packs| == old(|packs|) + 1 && packs[..old(|packs|)] == old(packs) && Sound(packs[old(|packs|)], old(bodies))
          && packs[old(|packs|)].entries == old(written)
    {
      hide Flat;
      assert Names([]) == {};
      if f.None? {
        return;
      }
      if |written| > 0 {
        var bytes := f.value;
        if |written| > 1 {
          bytes := PackHeader(|written|) + bytes[12..];
        }
        packs := packs + [Pack(bytes, written)];
        repo := repo + (set i | 0 <= i < |written| :: written[i].oid);
      }
      plugged, f, offset, written, bodies := false, None, 0, [], [];
    }

    /** already_written */
    method AlreadyWritten(oid: nat) returns (r: bool)
      ensures r <==> oid in repo || oid in Names(written)
    {
      if oid in repo {
        return true;
      }
      var i := 0;
      while i < |written|
        invariant 0 <= i <= |written| && forall k :: 0 <= k < i ==> written[k].oid != oid
      {
        if written[i].oid == oid {
          return true;
        }
        i := i + 1;
      }
      return false;
    }

    /** prepare_to_stream */
    method PrepareToStream(writeObject: bool)
      requires Valid()
      modifies this`f, this`offset
      ensures Valid() && (writeObject ==> f.Some?)
      ensures (!writeObject || old(f.Some?) ==> f == old(f) && offset == old(offset))
      ensures writeObject && old(f.None?) ==> f == Some(PackHeader(1))
    {
      if !writeObject || f.Some? {
        return;
      }
      f := Some(PackHeader(1));
      offset := 12;
      assert Flat([]) == [];
    }

    /**
     stream_to_pack: reads the file in pieces, hashes what was not hashed before, and writes what the
     compressor produces whenever the output buffer is full, unless that would bust the size limit of a
     pack that holds an object already.  It gives up exactly then: body is all that was compressed, up to the
     buffer that was too much.
     */
    method StreamToPack(ctx: seq<Byte>, alreadyHashedTo: nat, fd: seq<Byte>, pos: nat, size: nat, header: seq<Byte>,
                        writeObject: bool, answers: seq<Answer>)
      returns (outcome: Outcome, ctx': seq<Byte>, hashedTo: nat, ghost body: seq<Byte>, ghost s: Stream)
      requires writeObject ==> f.Some? && offset == |f.value|
      requires pos + alreadyHashedTo <= |fd| && |header| <= BUFSIZE && ReadEnd(alreadyHashedTo, size)
      modifies this`f, this`offset
      ensures outcome != Died ==> pos + size <= |fd| || outcome == TooBig
      ensures outcome != Died ==>
        alreadyHashedTo <= hashedTo && ReadEnd(hashedTo, size) && pos + hashedTo <= |fd|
          && Absorbed(ctx', ctx, fd, pos + alreadyHashedTo, pos + hashedTo)
      ensures outcome == Done ==> hashedTo == size
      ensures outcome != Died ==> (outcome == TooBig <==> writeObject && TooMuch(written, limit, old(offset), |body|))
      ensures writeObject ==> f.Some? && offset == |f.value|
      ensures writeObject && outcome == Done ==> Appended(old(f.value), body)
      ensures outcome == TooBig ==> CutShort(old(f.value), f.value, body, written, limit)
      ensures !writeObject ==> f == old(f) && offset == old(offset)
      ensures writeObject && outcome != Died ==> Made(header, s, body, [])
      ensures outcome == Done ==> Fed(fd, pos, size, s.fed, [])
      ensures outcome == Died ==> HasToDie(answers, s.calls, fd, pos, size)
    {
      hide ReadEnd, Absorbed, TooMuch, Reading, Appended, Fed, HasToDie, CutShort, Made;
      hashedTo, ctx' := alreadyHashedTo, ctx;
      body, s := [], Stream([], [], 0);
      ghost var was := if writeObject then f.value else [];
      if writeObject { NothingAppended(was); }
      ReadingStart(ctx, fd, pos, alreadyHashedTo, size);
      NothingFed(fd, pos, header);
      var left: nat, input: seq<Byte>, at: nat := size, [], 0;
      var obuf := header;
      var ended := false;
      var calls := 0;
      while !ended
        invariant calls == s.calls <= |answers|
        invariant at + left == size && Reading(ctx', ctx, fd, pos, alreadyHashedTo, at, size, hashedTo)
        invariant |obuf| <= BUFSIZE && Fed(fd, pos, at, s.fed, input)
        invariant writeObject ==> Appended(was, body) && Made(header, s, body, obuf) && old(offset) == |was|
        invariant !writeObject ==> f == old(f) && offset == old(offset)
        invariant writeObject && body != [] ==> !TooMuch(written, limit, |was|, |body|)
        invariant ended ==> left == 0 && Fed(fd, pos, size, s.fed, [])
        invariant ended && writeObject ==> !TooMuch(written, limit, |was|, |body|) && Made(header, s, body, [])
        decreases |answers| - s.calls
      {
        if writeObject { AppendedMeans(was, body); }
        DyingNow(answers, calls, fd, pos, size);
        if calls == |answers| {
          return Died, ctx', hashedTo, body, s;
        }
        var a := answers[calls];
        calls := calls + 1;
        var ok, died;
        ok, died, ended, ctx', hashedTo, at, left, input, obuf, s :=
          Pump(a, ctx', hashedTo, fd, pos, at, left, input, obuf, ctx, alreadyHashedTo, size, s, header, body);
        if !ok {
          return Died, ctx', hashedTo, body, s;
        }
        var busted;
        busted, obuf, body := FlushIfDue(obuf, |obuf| == BUFSIZE || ended, writeObject, was, body, header, s);
        ReadingMeans(ctx', ctx, fd, pos, alreadyHashedTo, at, size, hashedTo);
        if writeObject && !busted { AppendedMeans(was, body); }
        if busted {
          return TooBig, ctx', hashedTo, body, s;
        }
        if died {
          return Died, ctx', hashedTo, body, s;
        }
      }
      outcome := Done;
      if writeObject { AppendedMeans(was, body); }
      ReadingMeans(ctx', ctx, fd, pos, alreadyHashedTo, at, size, hashedTo);
    }

    /** The temporary pack is what it was and the bytes of the body behind it. */
    ghost predicate Appended(was: seq<Byte>, body: seq<Byte>)
      reads this`f, this`offset
    {
      f.Some? && offset == |f.value| && f.value == was + body
    }

    lemma NothingAppended(was: seq<Byte>)
      requires f.Some? && offset == |f.value| && f.value == was
      ensures Appended(was, [])
    {
    }

    lemma AppendedMeans(was: seq<Byte>, body: seq<Byte>)
      requires Appended(was, body)
      ensures f.Some? && offset == |f.value| && was <= f.value && f.value == was + body
    {
    }

    /** When the output buffer is full or the stream has ended, it is written, or the pack would get too big. */
    method FlushIfDue(obuf: seq<Byte>, due: bool, writeObject: bool, ghost was: seq<Byte>, ghost body: seq<Byte>,
                      ghost header: seq<Byte>, ghost s: Stream)
      returns (busted: bool, obuf': seq<Byte>, ghost body': seq<Byte>)
      requires |obuf| <= BUFSIZE && (writeObject ==> Appended(was, body))
      requires writeObject && body != [] ==> !TooMuch(written, limit, |was|, |body|)
      modifies this`f, this`offset
      ensures !writeObject ==> !busted && f == old(f) && offset == old(offset) && body' == body
      ensures !due ==> !busted && obuf' == obuf && body' == body
      ensures due ==> obuf' == [] && (writeObject ==> body' == body + obuf)
      ensures writeObject && !busted ==> Appended(was, body')
      ensures writeObject && !busted && (due || body' != []) ==> !TooMuch(written, limit, |was|, |body'|)
      ensures busted ==> writeObject && TooMuch(written, limit, |was|, |body'|) && f == old(f) && offset == old(offset)
      ensures busted ==> CutShort(was, f.value, body', written, limit)
      ensures writeObject && Made(header, s, body, obuf) ==>
        Made(header, s, body', obuf') && (due ==> Made(header, s, body', []))
    {
      hide CutShort, Made;
      busted, obuf', body' := false, obuf, body;
      if due {
        if writeObject {
          busted := Flush(obuf);
          body' := body + obuf;
          CutIs(was, body, obuf, written, limit);
          if Made(header, s, body, obuf) { MadeFlushed(header, s, body, obuf); }
          assert (was + body) + obuf == was + (body + obuf);
        }
        obuf' := [];
      }
    }

    /** Reads more of the file if need be, and calls the compressor once. */
    method Pump(a: Answer, ctx: seq<Byte>, hashedTo: nat, fd: seq<Byte>, pos: nat, at: nat, left: nat, input: seq<Byte>,
                obuf: seq<Byte>, ghost ctx0: seq<Byte>, ghost start: nat, ghost size: nat, ghost s: Stream,
                ghost header: seq<Byte>, ghost body: seq<Byte>)
      returns (ok: bool, died: bool, ended: bool, ctx': seq<Byte>, hashedTo': nat, at': nat, left': nat,
               input': seq<Byte>, obuf': seq<Byte>, ghost s': Stream)
      requires at + left == size && Reading(ctx, ctx0, fd, pos, start, at, size, hashedTo)
      requires Fed(fd, pos, at, s.fed, input) && |obuf| <= BUFSIZE
      ensures s'.calls == s.calls + 1 && |obuf'| <= BUFSIZE && (!ok ==> |fd| < pos + size)
      ensures ok ==> at' + left' == size && Reading(ctx', ctx0, fd, pos, start, at', size, hashedTo')
      ensures ok ==> Fed(fd, pos, at', s'.fed, input') && died == a.bad
      ensures ok ==> ended == (a.end && left' == 0 && input' == [] && !a.bad)
      ensures ok && ended ==> Fed(fd, pos, size, s'.fed, [])
      ensures ok && Made(header, s, body, obuf) ==> Made(header, s', body, obuf')
    {
      hide Reading, Fed, Made;
      died, ended, obuf', s' := false, false, obuf, Stream(s.fed, s.made, s.calls + 1);
      ok, ctx', hashedTo', at', left', input' :=
        Refill(ctx, hashedTo, fd, pos, at, left, input, ctx0, start, size, s.fed);
      if ok {
        ghost var was, more := Batch(input', obuf), Stream([], [], 0);
        died, ended, input', obuf', more := Deflate(a, input', obuf, left' == 0);
        MoreFed(fd, pos, at', s, more, was, Batch(input', obuf'), header, body);
        s' := Stream(s.fed + more.fed, s.made + more.made, s.calls + 1);
      }
    }

    /** git_deflate: takes some input, adds some output, as far as there is room; it ends only when told to finish. */
    method Deflate(a: Answer, input: seq<Byte>, obuf: seq<Byte>, finish: bool)
      returns (died: bool, ended: bool, input': seq<Byte>, obuf': seq<Byte>, ghost s: Stream)
      requires |obuf| <= BUFSIZE
      ensures input == s.fed + input' && obuf' == obuf + s.made && |obuf'| <= BUFSIZE
      ensures s.made <= a.output && |s.fed| <= a.used
      ensures died == a.bad && ended == (a.end && finish && input' == [] && !a.bad)
    {
      var n := if a.used <= |input| then a.used else |input|;
      input' := input[n..];
      var room := BUFSIZE - |obuf|;
      var out := if |a.output| <= room then a.output else a.output[..room];
      obuf' := obuf + out;
      s := Stream(input[..n], out, 1);
      died := a.bad;
      ended := a.end && finish && input' == [] && !died;
    }

    /** Writes the output buffer, unless it busts the size limit. */
    method Flush(obuf: seq<Byte>) returns (busted: bool)
      requires f.Some? && offset == |f.value|
      modifies this`f, this`offset
      ensures f.Some? && offset == |f.value|
      ensures busted <==> TooMuch(written, limit, old(offset), |obuf|)
      ensures f.value == if busted then old(f.value) else old(f.value) + obuf
    {
      if written != [] && limit > 0 && limit < offset + |obuf| {
        return true;
      }
      f := Some(f.value + obuf);
      offset := offset + |obuf|;
      return false;
    }

    /** When the input is used up, the next piece of the file is read. */
    method Refill(ctx: seq<Byte>, hashedTo: nat, fd: seq<Byte>, pos: nat, at: nat, left: nat, input: seq<Byte>,
                  ghost ctx0: seq<Byte>, ghost start: nat, ghost size: nat, ghost fed: seq<Byte>)
      returns (ok: bool, ctx': seq<Byte>, hashedTo': nat, at': nat, left': nat, input': seq<Byte>)
      requires at + left == size && Reading(ctx, ctx0, fd, pos, start, at, size, hashedTo)
      requires Fed(fd, pos, at, fed, input)
      ensures ok ==> at' + left' == size && Reading(ctx', ctx0, fd, pos, start, at', size, hashedTo')
      ensures ok ==> Fed(fd, pos, at', fed, input')
      ensures !ok ==> |fd| < pos + size
    {
      hide Reading;
      ok, ctx', hashedTo', at', left', input' := true, ctx, hashedTo, at, left, input;
      if left > 0 && input == [] {
        var ibuf;
        ok, ibuf, ctx', hashedTo' := ReadPiece(ctx, hashedTo, fd, pos, at, left, ctx0, start, size);
        if ok {
          PieceFed(fd, pos, at, fed, ibuf);
          at', input', left' := at + |ibuf|, ibuf, left - |ibuf|;
        }
      }
    }

    /** One read of the file, and the hash of what was not hashed before. */
    method ReadPiece(ctx: seq<Byte>, hashedTo: nat, fd: seq<Byte>, pos: nat, at: nat, left: nat,
                     ghost ctx0: seq<Byte>, ghost start: nat, ghost size: nat)
      returns (ok: bool, ibuf: seq<Byte>, ctx': seq<Byte>, hashedTo': nat)
      requires left > 0 && at + left == size && Reading(ctx, ctx0, fd, pos, start, at, size, hashedTo)
      ensures ok ==> 0 < |ibuf| <= left && |ibuf| <= BUFSIZE && pos + at + |ibuf| <= |fd|
      ensures !ok ==> |fd| < pos + size
      ensures ok ==> ibuf == fd[pos + at..pos + at + |ibuf|]
      ensures ok ==> Reading(ctx', ctx0, fd, pos, start, at + |ibuf|, size, hashedTo')
    {
      var rsize := if left < BUFSIZE then left else BUFSIZE;
      ctx', hashedTo', ibuf := ctx, hashedTo, [];
      if |fd| - (pos + at) < rsize {
        return false, ibuf, ctx', hashedTo';
      }
      ok := true;
      ibuf := fd[pos + at..pos + at + rsize];
      if hashedTo < at + rsize {
        var hsize := at + rsize - hashedTo;
        if rsize < hsize {
          hsize := rsize;
        }
        NextEnd(at, hashedTo, rsize, size);
        ctx' := ctx' + ibuf[..hsize];
        hashedTo' := at + rsize;
        MoreRead(ctx0, ctx, ctx', fd, pos + start, pos + hashedTo, pos + hashedTo');
      }
    }

    /**
     deflate_to_pack: streams one file, a second time into a new pack if it would make this one too big.
     The hash takes in the object header and then every byte of the file once, in order.  An object that is
     known already is cut off again; a new one joins the pack.  The pack is finished early, and the plug lost,
     exactly if it holds objects and what the compressor makes of the file in the first try goes over the limit.
     */
    method DeflateToPack(objHeader: seq<Byte>, fd: seq<Byte>, pos: nat, size: nat, header: seq<Byte>, writeObject: bool,
                         zlib: nat -> seq<Answer>)
      returns (outcome: Outcome, oid: nat, tries: nat, ghost body: seq<Byte>, ghost first: seq<Byte>,
               ghost s: Stream)
      requires Valid() && pos <= |fd| && |header| <= BUFSIZE
      modifies this
      ensures outcome != Died ==> outcome == Done && Valid() && 1 <= tries <= 2
      ensures outcome == Done ==> pos + size <= |fd| && oid == hash(objHeader + fd[pos..pos + size])
      ensures outcome == Done && !writeObject ==>
        tries == 1 && f == old(f) && written == old(written) && packs == old(packs) && repo == old(repo)
          && plugged == old(plugged)
      ensures outcome == Done && writeObject ==> f.Some? && (oid in repo || oid in Names(written))
      ensures outcome == Done ==> s.fed == fd[pos..pos + size] && (writeObject ==> body == header + s.made)
      ensures outcome == Died ==> HasToDie(zlib(tries), s.calls, fd, pos, size)
      ensures outcome == Done && writeObject && tries == 1 ==>
        packs == old(packs) && repo == old(repo) && plugged == old(plugged)
      ensures outcome == Done && writeObject && tries == 1 ==>
        Joins(old(Kept()), Kept(), oid, body, oid in old(repo) || oid in Names(old(written)))
      ensures outcome == Done && tries == 2 ==>
        writeObject && !plugged && repo == old(repo) + Names(old(written)) && |packs| == old(|packs|) + 1
          && Sound(packs[old(|packs|)], old(bodies))
      ensures outcome == Done && tries == 2 ==> Joins(Contents(PackHeader(1), [], []), Kept(), oid, body, oid in repo)
      ensures outcome == Done ==>
        (tries == 2 <==> writeObject && old(written) != [] && 0 < limit < old(offset) + |first|)
      ensures outcome == Done && writeObject ==> header <= first && (tries == 1 ==> first == body)
    {
      hide Flat, PackHeader, DistinctNames, Names, Indexed, Sound, Absorbed, Joins, Streamed, Fed;
      var checkpoint: nat, ctx: seq<Byte>;
      outcome, ctx, checkpoint, tries, body, first, s :=
        StreamWithRetry(objHeader, fd, pos, size, header, writeObject, zlib);
      oid := 0;
      if outcome == Died {
        return;
      }
      oid := hash(ctx);
      AllFed(fd, pos, size, s.fed);
      if !writeObject {
        return;
      }
      Record(oid, checkpoint, body);
      NoNames();
    }

    /**
     The loop of deflate_to_pack: when the file would make the pack too big, the pack is finished without it.
     There is a second try exactly if first, what the compressor made of the file in the first one, was too much.
     */
    method StreamWithRetry(objHeader: seq<Byte>, fd: seq<Byte>, pos: nat, size: nat, header: seq<Byte>,
                           writeObject: bool,
                           zlib: nat -> seq<Answer>)
      returns (outcome: Outcome, ctx: seq<Byte>, checkpoint: nat, tries: nat, ghost body: seq<Byte>,
               ghost first: seq<Byte>, ghost s: Stream)
      requires Valid() && pos <= |fd| && |header| <= BUFSIZE
      modifies this
      ensures outcome != Died ==>
        outcome == Done && 1 <= tries <= 2 && pos + size <= |fd| && ctx == objHeader + fd[pos..pos + size]
      ensures outcome == Done && !writeObject ==> tries == 1 && Valid() && f == old(f)
      ensures outcome == Died ==> HasToDie(zlib(tries), s.calls, fd, pos, size)
      ensures outcome == Done ==> Fed(fd, pos, size, s.fed, [])
      ensures outcome == Done && writeObject ==> Streamed(checkpoint, body) && body == header + s.made
      ensures outcome == Done && tries == 1 ==>
        written == old(written) && bodies == old(bodies) && packs == old(packs) && repo == old(repo)
          && plugged == old(plugged)
      ensures outcome == Done && writeObject && tries == 1 ==> Before(checkpoint) == old(Kept())
      ensures outcome == Done && tries == 2 ==>
        writeObject && !plugged && repo == old(repo) + Names(old(written)) && |packs| == old(|packs|) + 1
          && Sound(packs[old(|packs|)], old(bodies))
      ensures outcome == Done && tries == 2 ==> Before(checkpoint) == Contents(PackHeader(1), [], [])
      ensures outcome == Done ==>
        (tries == 2 <==> writeObject && TooMuch(old(written), limit, old(offset), |first|))
      ensures outcome == Done && writeObject ==> header <= first && (tries == 1 ==> first == body)
    {
      hide Flat, PackHeader, DistinctNames, Names, Indexed, Sound, Absorbed, ReadEnd, Fed;
      ctx := objHeader;
      var alreadyHashedTo := 0;
      tries, body, first, checkpoint, s := 0, [], [], 0, Stream([], [], 0);
      Ends(0, size);
      NoneRead(objHeader, fd, pos);
      while true
        invariant Valid() && 0 <= tries <= 1 && ReadEnd(alreadyHashedTo, size) && pos + alreadyHashedTo <= |fd|
        invariant Absorbed(ctx, objHeader, fd, pos, pos + alreadyHashedTo)
        invariant tries == 0 ==>
          f == old(f) && written == old(written) && bodies == old(bodies) && packs == old(packs) && repo == old(repo)
            && plugged == old(plugged) && offset == old(offset)
        invariant tries == 1 ==> f.None? && written == [] && writeObject && !plugged && header <= first
        invariant tries == 1 ==> TooMuch(old(written), limit, old(offset), |first|)
        invariant tries == 1 ==>
          repo == old(repo) + Names(old(written)) && |packs| == old(|packs|) + 1
            && Sound(packs[old(|packs|)], old(bodies))
        decreases 1 - tries
      {
        PrepareToStream(writeObject);
        if writeObject {
          checkpoint := |f.value|;
        }
        tries := tries + 1;
        ghost var before, ctxBefore := alreadyHashedTo, ctx;
        outcome, ctx, alreadyHashedTo, body, s := StreamToPack(ctx, alreadyHashedTo, fd, pos, size, header, writeObject,
                                                               zlib(tries));
        if outcome == Died {
          return;
        }
        if writeObject { MadeAll(header, s, body); }
        MoreRead(objHeader, ctxBefore, ctx, fd, pos, pos + before, pos + alreadyHashedTo);
        if tries == 1 { first := body; }
        if outcome == Done {
          break;
        }
        f := Some(f.value[..checkpoint]);
        offset := checkpoint;
        FinishBulkCheckin();
      }
      AllRead(ctx, objHeader, fd, pos, size);
    }

    /** The pack up to the checkpoint, before the object that was just streamed. */
    ghost function Before(checkpoint: nat): Contents
      reads this`f, this`written, this`bodies
    {
      Contents(if f.Some? && checkpoint <= |f.value| then f.value[..checkpoint] else [], written, bodies)
    }

    /** The temporary pack was valid up to the checkpoint, and now has the body of an object behind it. */
    ghost predicate Streamed(checkpoint: nat, body: seq<Byte>)
      reads this
    {
      && f.Some? && checkpoint <= |f.value| && f.value[..checkpoint] == PackHeader(1) + Flat(bodies)
      && f.value == f.value[..checkpoint] + body && offset == |f.value|
      && Indexed(written, bodies) && DistinctNames(written) && Names(written) !! repo
      && (written != [] && limit > 0 ==> offset <= limit)
      && (limit > 0 && |written| >= 2 ==> checkpoint <= limit)
    }

    /** The end of deflate_to_pack: keeps a new object, and cuts off a known one. */
    method Record(oid: nat, checkpoint: nat, ghost body: seq<Byte>)
      requires Streamed(checkpoint, body)
      modifies this`f, this`offset, this`written, this`bodies
      ensures Valid() && f.Some? && (oid in repo || oid in Names(written))
      ensures Joins(old(Before(checkpoint)), Kept(), oid, body, oid in repo || oid in old(Names(written)))
    {
      hide Flat, PackHeader, DistinctNames, Names, Indexed, Joins;
      ghost var kept := Before(checkpoint);
      AddedOne(written, bodies, oid, body);
      var known := AlreadyWritten(oid);
      if known {
        f := Some(f.value[..checkpoint]);
        offset := checkpoint;
      } else {
        written := written + [Idx(oid, checkpoint)];
        bodies := bodies + [body];
      }
      JoinsIs(kept, Kept(), oid, body, known);
    }

    /**
     index_bulk_checkin: one file; without a plug the pack is finished at once.  With a plug, it stays plugged
     exactly if the file does not go over the limit, as first, what the compressor first made of it, tells; then
     nothing is finished.
     */
    method IndexBulkCheckin(objHeader: seq<Byte>, fd: seq<Byte>, pos: nat, size: nat, header: seq<Byte>,
                            writeObject: bool,
                            zlib: nat -> seq<Answer>)
      returns (outcome: Outcome, oid: nat, ghost first: seq<Byte>)
      requires Valid() && pos <= |fd| && |header| <= BUFSIZE
      modifies this
      ensures outcome != Died ==>
        outcome == Done && Valid() && pos + size <= |fd| && oid == hash(objHeader + fd[pos..pos + size])
      ensures outcome == Done && writeObject ==> oid in repo || oid in Names(written)
      ensures outcome == Done && writeObject && !plugged ==> f.None? && oid in repo
      ensures outcome == Done ==> old(repo + Names(written)) <= repo + Names(written)
      ensures outcome == Done && !old(plugged) ==> !plugged && f.None?
      ensures outcome == Done && writeObject ==> header <= first
      ensures outcome == Done && old(plugged) ==>
        (plugged <==> !(writeObject && old(written) != [] && 0 < limit < old(offset) + |first|))
      ensures outcome == Done && old(plugged) ==> (plugged <==> packs == old(packs)) && (plugged ==> repo == old(repo))
    {
      hide Flat, PackHeader, DistinctNames, Names, Indexed, Sound, Joins;
      var tries;
      ghost var body, s;
      ghost var names := Names(written);
      outcome, oid, tries, body, first, s := DeflateToPack(objHeader, fd, pos, size, header, writeObject, zlib);
      if outcome == Died {
        return;
      }
      if writeObject && tries == 1 { JoinsNames(old(Kept()), Kept(), oid, body, oid in old(repo) || oid in names); }
      if !plugged {
        FinishBulkCheckin();
        NoNames();
      }
    }

    /** plug_bulk_checkin */
    method Plug()
      requires Valid()
      modifies this`plugged
      ensures Valid() && plugged
    {
      plugged := true;
    }

    /** unplug_bulk_checkin: what was written becomes part of the repository. */
    method Unplug()
      requires Valid()
      modifies this
      ensures Valid() && !plugged && f.None? && repo == old(repo) + old(Names(written))
      ensures old(written) != [] ==> |packs| == old(|packs|) + 1 && Sound(packs[old(|packs|)], old(bodies))
    {
      hide Names, Sound, Flat, PackHeader;
      plugged := false;
      NoNames();
      if f.Some? {
        FinishBulkCheckin();
      }
    }

    /** What the temporary pack holds. */
    ghost function Kept(): Contents
      reads this`f, this`written, this`bodies
    {
      Contents(if f.Some? then f.value else PackHeader(1), written, bodies)
    }
  }

  /**
   Two files of one byte, checked in under one plug with a limit of twelve bytes: whatever the compressor and the
   hash do, if both are checked in, the plug is gone although nobody unplugged, and the first is in a finished pack.
   */
  method PlugLost(hash: seq<Byte> -> nat, zlib: nat -> seq<Answer>) returns (c: Checkin, done: bool)
    ensures done ==> !c.plugged && |c.packs| >= 1
  {
    hide Names, Indexed, DistinctNames, PackHeader, Flat;
    NoNames();
    c := new Checkin(12, hash, {});
    c.Plug();
    var outcome, oid;
    ghost var first;
    outcome, oid, first := c.IndexBulkCheckin([98], [65], 0, 1, [49], true, zlib);
    if outcome == Died {
      return c, false;
    }
    assert c.plugged && c.repo == {} && c.packs == [];
    HasPack(c);
    outcome, oid, first := c.IndexBulkCheckin([98], [66], 0, 1, [49], true, zlib);
    done := outcome == Done;
  }

  lemma HasPack(c: Checkin)
    requires c.Valid()
    ensures c.written == [] ==> Names(c.written) == {}
    ensures c.written != [] ==> c.offset >= 12
  {
    hide Indexed, DistinctNames, Flat;
  }

  datatype Contents = Contents(bytes: seq<Byte>, entries: seq<Idx>, bodies: seq<seq<Byte>>)

  /** An object joins a pack at its end, unless it is known already; then the pack stays as it was. */
  ghost predicate Joins(before: Contents, after: Contents, oid: nat, body: seq<Byte>, known: bool) {
    if known then after == before else
    && after.bytes == before.bytes + body
    && after.entries == before.entries + [Idx(oid, |before.bytes|)]
    && after.bodies == before.bodies + [body]
  }

  lemma NoNames()
    ensures Names([]) == {}
  {
  }

  lemma JoinsIs(before: Contents, after: Contents, oid: nat, body: seq<Byte>, known: bool)
    ensures known && after == before ==> Joins(before, after, oid, body, known)
    ensures var grown := Contents(before.bytes + body, before.entries + [Idx(oid, |before.bytes|)],
                                  before.bodies + [body]);
      !known && after == grown ==> Joins(before, after, oid, body, known)
  {
  }

  lemma JoinsNames(before: Contents, after: Contents, oid: nat, body: seq<Byte>, known: bool)
    requires Joins(before, after, oid, body, known)
    ensures Names(before.entries) <= Names(after.entries)
  {
    forall x | x in Names(before.entries) ensures x in Names(after.entries) {
      var i :| 0 <= i < |before.entries| && before.entries[i].oid == x;
      assert after.entries[i].oid == x;
    }
  }

  /** An entry more, at the end of what the pack held. */
  lemma AddedOne(entries: seq<Idx>, bodies: seq<seq<Byte>>, oid: nat, body: seq<Byte>)
    requires Indexed(entries, bodies) && DistinctNames(entries)
    ensures Flat(bodies + [body]) == Flat(bodies) + body
    ensures Indexed(entries + [Idx(oid, |PackHeader(1) + Flat(bodies)|)], bodies + [body])
    ensures Names(entries + [Idx(oid, |PackHeader(1) + Flat(bodies)|)]) == Names(entries) + {oid}
    ensures oid !in Names(entries) ==> DistinctNames(entries + [Idx(oid, |PackHeader(1) + Flat(bodies)|)])
  {
    hide *;
    HeaderSize(Flat(bodies));
    FlatMore(bodies, body);
    IndexedMore(entries, bodies, Idx(oid, 12 + |Flat(bodies)|), body);
    NamesMore(entries, Idx(oid, 12 + |Flat(bodies)|));
  }

  lemma HeaderSize(rest: seq<Byte>)
    ensures |PackHeader(1) + rest| == 12 + |rest|
  {
    hide PackHeader;
  }

  lemma FlatMore(bodies: seq<seq<Byte>>, body: seq<Byte>)
    ensures Flat(bodies + [body]) == Flat(bodies) + body
  {
    assert (bodies + [body])[..|bodies|] == bodies;
  }

  lemma IndexedMore(entries: seq<Idx>, bodies: seq<seq<Byte>>, e: Idx, body: seq<Byte>)
    requires Indexed(entries, bodies) && e.offset == 12 + |Flat(bodies)|
    ensures Indexed(entries + [e], bodies + [body])
  {
    hide Flat;
    var more, bs := entries + [e], bodies + [body];
    forall i | 0 <= i < |more| ensures more[i].offset == 12 + |Flat(bs[..i])| {
      if i < |entries| { assert bs[..i] == bodies[..i]; } else { assert bs[..i] == bodies; }
    }
  }

  lemma NamesMore(entries: seq<Idx>, e: Idx)
    ensures Names(entries + [e]) == Names(entries) + {e.oid}
    ensures DistinctNames(entries) && e.oid !in Names(entries) ==> DistinctNames(entries + [e])
  {
    var more := entries + [e];
    forall x | x in Names(entries) ensures x in Names(more) {
      var i :| 0 <= i < |entries| && entries[i].oid == x;
      assert more[i].oid == x;
    }
    assert more[|entries|].oid == e.oid;
    if DistinctNames(entries) && e.oid !in Names(entries) {
      forall i, j | 0 <= i < j < |more| ensures more[i].oid != more[j].oid {
        if j == |entries| { assert entries[i].oid in Names(entries); }
      }
    }
  }
}
