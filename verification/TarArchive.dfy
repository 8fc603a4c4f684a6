/**
 * The archive container: `writeArchive` and `indexTar` of
 * packages/db/src/archive-file.ts, over the bytes of the decompressed tar.
 */
module TarArchive {
  import opened Wrappers
  import opened Ustar

  datatype Member = Member(name: bytes, body: bytes)

  /** Where a member's body lives in the tar. */
  datatype Location = Location(name: bytes, offset: nat, size: nat)

  datatype IndexError = CorruptHeader(reason: HeaderError) | TruncatedMember | NoEndMarker

  /** Bytes of padding a body of `size` needs to reach a block boundary. */
  function TarPadding(size: nat): (pad: nat)
    ensures pad < TAR_BLOCK && (size + pad) % TAR_BLOCK == 0
  {
    (TAR_BLOCK - size % TAR_BLOCK) % TAR_BLOCK
  }

  function MemberBytes(m: Member): (b: bytes)
    ensures |b| == TAR_BLOCK + |m.body| + TarPadding(|m.body|)
  {
    HeaderBytes(m.name, |m.body|) + m.body + Zeros(TarPadding(|m.body|))
  }

  function ArchiveBytes(ms: seq<Member>): bytes {
    if ms == [] then Zeros(2 * TAR_BLOCK) else MemberBytes(ms[0]) + ArchiveBytes(ms[1..])
  }

  predicate NameFits(m: Member) { 0 < |m.name| <= NAME_LIMIT }

  /** What the header can carry without loss; see Ustar.HeaderRoundTrip. */
  predicate ValidMember(m: Member) { NameFits(m) && 0 !in m.name && |m.body| <= SIZE_LIMIT }

  // ----- the writer --------------------------------------------------------

  /** Header, body, padding. */
  method WriteMember(sink: bytes, m: Member) returns (r: Result<bytes, HeaderError>)
    ensures r == if NameFits(m) then Ok(sink + MemberBytes(m)) else Err(BadName)
  {
    hide HeaderBytes;
    var header := TarHeader(m.name, |m.body|);
    if header.Err? { return Err(header.error); }
    var out := sink + header.value[..] + m.body;
    var pad := TarPadding(|m.body|);
    if pad > 0 { out := out + Zeros(pad); }
    assert out == sink + MemberBytes(m);
    r := Ok(out);
  }

  method WriteArchive(members: seq<Member>) returns (r: Result<bytes, HeaderError>)
    ensures (forall i :: 0 <= i < |members| ==> 1 <= |members[i].name| <= 100) ==> r == Ok(ArchiveBytes(members))
    ensures !(forall i :: 0 <= i < |members| ==> 1 <= |members[i].name| <= 100) ==> r == Err(BadName)
  {
    hide HeaderBytes, MemberBytes;
    var sink: bytes := [];
    for i := 0 to |members|
      invariant sink + ArchiveBytes(members[i..]) == ArchiveBytes(members)
      invariant forall k :: 0 <= k < i ==> NameFits(members[k])
    {
      var m := members[i];
      assert members[i..][1..] == members[i + 1..];
      var written := WriteMember(sink, m);
      if written.Err? { return written; }
      assert (sink + MemberBytes(m)) + ArchiveBytes(members[i + 1..]) == sink + ArchiveBytes(members[i..]);
      sink := written.value;
    }
    sink := sink + Zeros(2 * TAR_BLOCK);
    r := Ok(sink);
  }

  // ----- the reader --------------------------------------------------------

  /** The members from the header block at `offset` to the end marker. */
  function IndexFrom(file: bytes, offset: nat): Result<seq<Location>, IndexError>
    decreases |file| - offset
  {
    if offset + TAR_BLOCK > |file| then Err(NoEndMarker) else
    match ParseHeader(file[offset..offset + TAR_BLOCK])
    case Err(e) => Err(CorruptHeader(e))
    case Ok(None) => Ok([])
    case Ok(Some(h)) =>
      var body := offset + TAR_BLOCK;
      if body + h.size > |file| then Err(TruncatedMember)
      else Prepend([Location(h.name, body, h.size)], IndexFrom(file, body + h.size + TarPadding(h.size)))
  }

  function Prepend(front: seq<Location>, r: Result<seq<Location>, IndexError>): Result<seq<Location>, IndexError> {
    match r
    case Ok(rest) => Ok(front + rest)
    case Err(e) => Err(e)
  }

  method IndexTar(file: bytes) returns (r: Result<seq<Location>, IndexError>)
    ensures r == IndexFrom(file, 0)
  {
    hide ParseHeader;
    var members: seq<Location> := [];
    var offset := 0;
    assert forall rest: seq<Location> :: members + rest == rest;
    var sawEnd := false;
    while offset + TAR_BLOCK <= |file| && !sawEnd
      invariant IndexFrom(file, 0) == Prepend(members, if sawEnd then Ok([]) else IndexFrom(file, offset))
      decreases |file| - offset, !sawEnd
    {
      var header := ParseTarHeader(file[offset..offset + TAR_BLOCK]);
      if header.Err? { return Err(CorruptHeader(header.error)); }
      if header.value.None? {
        sawEnd := true;
      } else {
        var h := header.value.value;
        var body := offset + TAR_BLOCK;
        if body + h.size > |file| { return Err(TruncatedMember); }
        ghost var here := [Location(h.name, body, h.size)];
        assert forall rest: seq<Location> :: members + (here + rest) == members + here + rest;
        members := members + [Location(h.name, body, h.size)];
        offset := body + h.size + TarPadding(h.size);
      }
    }
    if !sawEnd { return Err(NoEndMarker); }
    assert members + [] == members;
    r := Ok(members);
  }

  // ----- writer against reader ---------------------------------------------

  function Locations(ms: seq<Member>, offset: nat): (ls: seq<Location>)
    ensures |ls| == |ms|
  {
    if ms == [] then []
    else [Location(ms[0].name, offset + TAR_BLOCK, |ms[0].body|)] + Locations(ms[1..], offset + |MemberBytes(ms[0])|)
  }

  predicate AllValid(ms: seq<Member>) { forall i :: 0 <= i < |ms| ==> ValidMember(ms[i]) }

  /** The header block at the front of a member, wherever the member stands in a cut file. */
  lemma FirstHeader(pre: bytes, m: Member, rest: bytes, k: nat)
    requires ValidMember(m) && |pre| + TAR_BLOCK <= k <= |pre + (MemberBytes(m) + rest)|
    ensures ParseHeader((pre + (MemberBytes(m) + rest))[..k][|pre|..|pre| + TAR_BLOCK])
         == Ok(Some(Header(m.name, |m.body|)))
  {
    assert (pre + (MemberBytes(m) + rest))[..k][|pre|..|pre| + TAR_BLOCK] == HeaderBytes(m.name, |m.body|);
    HeaderRoundTrip(m.name, |m.body|);
  }

  lemma EndBlock()
    ensures ParseHeader(Zeros(TAR_BLOCK)) == Ok(None)
  {
  }

  lemma {:induction false} IndexOfCut(pre: bytes, ms: seq<Member>, k: nat)
    requires AllValid(ms) && k <= |pre + ArchiveBytes(ms)|
    ensures var index := IndexFrom((pre + ArchiveBytes(ms))[..k], |pre|);
            if k + TAR_BLOCK >= |pre + ArchiveBytes(ms)| then index == Ok(Locations(ms, |pre|)) else index.Err?
    decreases |ms|
  {
    hide ParseHeader, HeaderBytes;
    var file := (pre + ArchiveBytes(ms))[..k];
    if ms == [] {
      if k >= |pre| + TAR_BLOCK {
        assert file[|pre|..|pre| + TAR_BLOCK] == Zeros(TAR_BLOCK);
        EndBlock();
      }
    } else if k >= |pre| + TAR_BLOCK {
      FirstHeader(pre, ms[0], ArchiveBytes(ms[1..]), k);
      var next := pre + MemberBytes(ms[0]);
      assert next + ArchiveBytes(ms[1..]) == pre + ArchiveBytes(ms);
      IndexOfCut(next, ms[1..], k);
      ArchiveIsLong(ms[1..]);
    } else {
      ArchiveIsLong(ms);
    }
  }

  lemma {:induction false} ArchiveIsLong(ms: seq<Member>)
    ensures |ArchiveBytes(ms)| >= 2 * TAR_BLOCK
  {
    if ms != [] { ArchiveIsLong(ms[1..]); }
  }

  /**
   * Reading inverts writing, and a truncated archive is never read in part: the
   * first `k` bytes of a written archive index to the complete member list when at
   * most the second of the two end blocks is missing, and are refused otherwise.
   */
  lemma TruncationIsAllOrNothing(ms: seq<Member>, k: nat)
    requires AllValid(ms) && k <= |ArchiveBytes(ms)|
    ensures k >= |ArchiveBytes(ms)| - TAR_BLOCK ==> IndexFrom(ArchiveBytes(ms)[..k], 0) == Ok(Locations(ms, 0))
    ensures k < |ArchiveBytes(ms)| - TAR_BLOCK ==> IndexFrom(ArchiveBytes(ms)[..k], 0).Err?
  {
    assert [] + ArchiveBytes(ms) == ArchiveBytes(ms);
    IndexOfCut([], ms, k);
  }

  lemma {:induction false} BodyInFile(pre: bytes, ms: seq<Member>, i: nat)
    requires i < |ms|
    ensures var at, file := Locations(ms, |pre|)[i], pre + ArchiveBytes(ms);
            at.name == ms[i].name && at.size == |ms[i].body|
            && at.offset + at.size <= |file| && file[at.offset..at.offset + at.size] == ms[i].body
    decreases i
  {
    hide HeaderBytes;
    var next := pre + MemberBytes(ms[0]);
    assert next + ArchiveBytes(ms[1..]) == pre + ArchiveBytes(ms);
    if i > 0 { BodyInFile(next, ms[1..], i - 1); }
  }

  /** Every member of an archive is found at its index, with its name, size and exact bytes. */
  lemma IndexInvertsWrite(ms: seq<Member>, i: nat)
    requires AllValid(ms) && i < |ms|
    ensures var file := ArchiveBytes(ms);
            && IndexFrom(file, 0) == Ok(Locations(ms, 0))
            && Locations(ms, 0)[i].name == ms[i].name
            && Locations(ms, 0)[i].size == |ms[i].body|
            && Locations(ms, 0)[i].offset + |ms[i].body| <= |file|
            && file[Locations(ms, 0)[i].offset..Locations(ms, 0)[i].offset + |ms[i].body|] == ms[i].body
  {
    hide ArchiveBytes, Locations, IndexFrom, ValidMember;
    var file := ArchiveBytes(ms);
    assert [] + file == file && file[..|file|] == file;
    IndexOfCut([], ms, |file|);
    BodyInFile([], ms, i);
  }

  // ----- arbitrary files ---------------------------------------------------

  /** Block-aligned, inside the file, in order and without overlap. */
  predicate Laid(ls: seq<Location>, from: nat, total: nat) {
    ls == [] ||
    (&& ls[0].offset == from + TAR_BLOCK
     && ls[0].offset % TAR_BLOCK == 0
     && ls[0].offset + ls[0].size <= total
     && Laid(ls[1..], ls[0].offset + ls[0].size + TarPadding(ls[0].size), total))
  }

  /** Whatever the bytes are, an index that is not a refusal describes disjoint bodies inside the file. */
  lemma {:induction false} IndexIsLaidOut(file: bytes, offset: nat)
    requires offset % TAR_BLOCK == 0 && IndexFrom(file, offset).Ok?
    ensures Laid(IndexFrom(file, offset).value, offset, |file|)
    decreases |file| - offset
  {
    hide ParseHeader;
    var ls := IndexFrom(file, offset).value;
    if ls != [] {
      var next := ls[0].offset + ls[0].size + TarPadding(ls[0].size);
      assert next % TAR_BLOCK == 0;
      IndexIsLaidOut(file, next);
      assert ls[1..] == IndexFrom(file, next).value;
    }
  }

  /** From a header block on: member after member, each inside the file and at a block boundary, up to a blank block. */
  ghost predicate Described(file: bytes, from: nat, ls: seq<Location>)
    decreases |ls|
  {
    && from + 512 <= |file|
    && var block := file[from..from + 512];
       if ls == [] then Blank(block) else
       && !Blank(block) && Sums(block) && HasName(block, ls[0].name) && HasSize(block, ls[0].size)
       && ls[0].offset == from + 512 && ls[0].offset + ls[0].size <= |file|
       && Described(file, (ls[0].offset + ls[0].size + 511) / 512 * 512, ls[1..])
  }

  lemma NextHeader(body: nat, size: nat)
    requires body % 512 == 0
    ensures body + size + TarPadding(size) == (body + size + 511) / 512 * 512
  {
  }

  /** Whatever the bytes are: which member lists a file is indexed with, and so which files are refused. */
  lemma {:induction false} IndexExactly(file: bytes, from: nat, ls: seq<Location>)
    requires from % 512 == 0
    ensures IndexFrom(file, from) == Ok(ls) <==> Described(file, from, ls)
    decreases |ls|
  {
    if from + 512 <= |file| {
      hide ParseHeader, Sums, HasName, HasSize, Blank, TarPadding, IndexFrom;
      HeaderReadExactly(file[from..from + 512]);
      if ls != [] {
        var next := (from + 512 + ls[0].size + 511) / 512 * 512;
        NextHeader(from + 512, ls[0].size);
        IndexExactly(file, next, ls[1..]);
        FirstLocation(file, from, ls);
      } else {
        NoLocation(file, from);
      }
    } else {
      hide ParseHeader;
    }
  }

  lemma NoLocation(file: bytes, from: nat)
    requires from + 512 <= |file|
    ensures IndexFrom(file, from) == Ok([]) <==> ParseHeader(file[from..from + 512]) == Ok(None)
  {
    hide ParseHeader;
  }

  lemma Cons(first: Location, rest: seq<Location>, ls: seq<Location>)
    requires ls != []
    ensures ([first] + rest == ls) <==> (first == ls[0] && rest == ls[1..])
  {
    assert ls == [ls[0]] + ls[1..];
    assert [first] + rest == ls ==> ([first] + rest)[1..] == rest;
  }

  lemma FirstLocation(file: bytes, from: nat, ls: seq<Location>)
    requires from + 512 <= |file| && ls != []
    ensures IndexFrom(file, from) == Ok(ls)
       <==> && ParseHeader(file[from..from + 512]) == Ok(Some(Header(ls[0].name, ls[0].size)))
            && ls[0].offset == from + 512 && from + 512 + ls[0].size <= |file|
            && IndexFrom(file, from + 512 + ls[0].size + TarPadding(ls[0].size)) == Ok(ls[1..])
  {
    hide ParseHeader, TarPadding;
    if ParseHeader(file[from..from + 512]).Ok? && ParseHeader(file[from..from + 512]).value.Some? {
      var h := ParseHeader(file[from..from + 512]).value.value;
      if from + 512 + h.size <= |file| {
        var r := IndexFrom(file, from + 512 + h.size + TarPadding(h.size));
        if r.Ok? { Cons(Location(h.name, from + 512, h.size), r.value, ls); }
      }
    }
  }

  function HeaderStart(ms: seq<Member>, i: nat): nat
    requires i <= |ms|
  {
    if i == 0 then 0 else |MemberBytes(ms[0])| + HeaderStart(ms[1..], i - 1)
  }

  lemma {:induction false} CorruptAt(pre: bytes, ms: seq<Member>, i: nat, j: nat, b: byte)
    requires AllValid(ms) && i < |ms| && j < TAR_BLOCK
    requires !(CHECKSUM_OFFSET <= j < CHECKSUM_OFFSET + CHECKSUM_LENGTH)
    requires |pre| + HeaderStart(ms, i) + j < |pre + ArchiveBytes(ms)|
    requires (pre + ArchiveBytes(ms))[|pre| + HeaderStart(ms, i) + j] != b
    ensures IndexFrom((pre + ArchiveBytes(ms))[|pre| + HeaderStart(ms, i) + j := b], |pre|)
         == Err(CorruptHeader(BadChecksum))
    decreases i
  {
    hide ParseHeader, HeaderBytes;
    var file := pre + ArchiveBytes(ms);
    var bad := file[|pre| + HeaderStart(ms, i) + j := b];
    var rest := ArchiveBytes(ms[1..]);
    FirstHeader(pre, ms[0], rest, |file|);
    assert file[..|file|] == file;
    var block := file[|pre|..|pre| + TAR_BLOCK];
    if i == 0 {
      assert bad[|pre|..|pre| + TAR_BLOCK] == block[j := b];
      ByteChangeRefused(block, j, b);
    } else {
      assert bad[|pre|..|pre| + TAR_BLOCK] == block;
      var next := pre + MemberBytes(ms[0]);
      assert next + rest == file;
      CorruptAt(next, ms[1..], i - 1, j, b);
    }
  }

  lemma {:induction false} HeaderInside(ms: seq<Member>, i: nat)
    requires i < |ms|
    ensures HeaderStart(ms, i) + TAR_BLOCK <= |ArchiveBytes(ms)|
  {
    if i > 0 { HeaderInside(ms[1..], i - 1); }
  }

  /** One changed byte in any member's header, its checksum field aside, and the whole archive is refused. */
  lemma CorruptHeaderRefused(ms: seq<Member>, i: nat, j: nat, b: byte)
    requires AllValid(ms) && i < |ms| && j < TAR_BLOCK
    requires !(CHECKSUM_OFFSET <= j < CHECKSUM_OFFSET + CHECKSUM_LENGTH)
    ensures HeaderStart(ms, i) + j < |ArchiveBytes(ms)|
    ensures ArchiveBytes(ms)[HeaderStart(ms, i) + j] != b ==>
              IndexFrom(ArchiveBytes(ms)[HeaderStart(ms, i) + j := b], 0) == Err(CorruptHeader(BadChecksum))
  {
    hide ParseHeader, HeaderBytes;
    HeaderInside(ms, i);
    if ArchiveBytes(ms)[HeaderStart(ms, i) + j] != b {
      assert [] + ArchiveBytes(ms) == ArchiveBytes(ms);
      CorruptAt([], ms, i, j, b);
    }
  }
}
