/** The image writer of imgact_gzip.c: inflate hands it the decompressed file
    in pieces, and it puts text and data in the memory of the new process. */
module ImageWriter {
  import opened Common

  /** sizeof (struct exec). */
  const HEADER: nat := 32
  const PAGE_SIZE: nat := 4096

  /** Flush keeps lengths in an int; a piece inflate hands on is no longer than
      its window. */
  const INT_MAX: nat := 0x7fff_ffff

  const ZMAGIC: nat := 0x10b
  const QMAGIC: nat := 0xcc

  /** What do_aout_hdr makes of the header: an error, or the offsets it sets. */
  datatype Verdict = Rejected | Accepted(virtualOffset: nat, fileOffset: nat, fileEnd: nat)

  /** What it asks of the system: two limits, and whether the address space
      could be set up. */
  datatype Host = Host(maxtsiz: nat, limData: nat, mapped: bool)

  /** The `i`-th 32-bit word of the header, least significant byte first. */
  function Word(h: seq<Byte>, i: nat): nat
    requires |h| == HEADER && i < 8
  {
    var b0: nat, b1: nat, b2: nat, b3: nat := h[4 * i], h[4 * i + 1], h[4 * i + 2], h[4 * i + 3];
    b0 + 0x100 * b1 + 0x1_0000 * b2 + 0x100_0000 * b3
  }

  /** virtual_offset and file_offset, by the magic number in host or network
      byte order; a_text is zero in "screwball mode". */
  function Offsets(h: seq<Byte>): Verdict
    requires |h| == HEADER
  {
    var b2: nat, b3: nat := h[2], h[3];
    var magic, net := Word(h, 0) % 0x1_0000, 0x100 * b2 + b3;
    if magic == ZMAGIC then Accepted(0, if Word(h, 1) != 0 then PAGE_SIZE else 0, 0)
    else if magic == QMAGIC || net == ZMAGIC || net == QMAGIC then Accepted(PAGE_SIZE, 0, 0)
    else Rejected
  }

  /** roundup, in 32 bits. */
  function RoundUp(n: nat): (r: nat)
    requires n < 0x1_0000_0000
    ensures r % 4096 == 0 && if n <= 0xffff_f000 then n <= r < n + 4096 else r == 0
  {
    (n + PAGE_SIZE - 1) % 0x1_0000_0000 / PAGE_SIZE * PAGE_SIZE
  }

  /** do_aout_hdr. */
  function DoAoutHdr(h: seq<Byte>, host: Host): Verdict
    requires |h| == HEADER
  {
    var text, data, bss, entry := Word(h, 1), Word(h, 2), Word(h, 3), Word(h, 5);
    var bssSize := RoundUp(bss);
    match Offsets(h)
    case Rejected => Rejected
    case Accepted(vo, fo, _) =>
      if entry < vo || entry >= vo + text || text % PAGE_SIZE != 0 || data % PAGE_SIZE != 0 then Rejected
      else if text > host.maxtsiz || data + bssSize > host.limData then Rejected
      else if !host.mapped then Rejected
      else Accepted(vo, fo, fo + text + data)
  }

  /** A field of struct exec, by its place. */
  function Field(h: seq<Byte>, at: nat): (r: nat)
    requires at + 4 <= |h|
    ensures r < 0x1_0000_0000
  {
    h[at] as int + 0x100 * h[at + 1] as int + 0x1_0000 * h[at + 2] as int + 0x100_0000 * h[at + 3] as int
  }

  /** The image goes to the start of the address space, and the file has a page
      before it: a_midmag is ZMAGIC in host byte order. */
  predicate FromZero(h: seq<Byte>)
    requires |h| >= 4
  {
    h[0] as int + 0x100 * h[1] as int == 0x10b
  }

  /** The image goes to the second page and starts with the header: QMAGIC in
      host byte order, or either in network byte order. */
  predicate FromPage(h: seq<Byte>)
    requires |h| >= 4
  {
    !FromZero(h) && (h[0] as int + 0x100 * h[1] as int == 0xcc || 0x100 * h[2] as int + h[3] as int in {0x10b, 0xcc})
  }

  /** The headers that are refused: no magic number, entry point outside the
      text, sizes that are not whole pages, more than the limits allow, or no
      address space. */
  predicate Refused(h: seq<Byte>, host: Host)
    requires |h| == 32
  {
    var text, data, bss, entry := Field(h, 4), Field(h, 8), Field(h, 12), Field(h, 20);
    var base := if FromZero(h) then 0 else 4096;
    || !(FromZero(h) || FromPage(h))
    || !(base <= entry < base + text)
    || text % 4096 != 0 || data % 4096 != 0
    || text > host.maxtsiz || data + RoundUp(bss) > host.limData
    || !host.mapped
  }

  /** The byte of the file that belongs at address `a`, if any. */
  predicate Belongs(file: seq<Byte>, a: nat, i: nat)
    requires |file| >= 32
  {
    var whole := Field(file, 4) + Field(file, 8);
    i < |file| && if FromZero(file) then a < whole && i == 4096 + a else 4096 <= a < 4096 + whole && i == a - 4096
  }

  /** What an accepted file leaves in memory. */
  ghost predicate Imaged(file: seq<Byte>, memory: map<nat, Byte>)
    requires |file| >= 32
  {
    && (forall a: nat, i: nat :: a in memory && Belongs(file, a, i) ==> memory[a] == file[i])
    && (forall a: nat :: a in memory ==> Belongs(file, a, if FromZero(file) then 4096 + a else if a < 4096 then 0 else a - 4096))
    && (Field(file, 4) + Field(file, 8) < 0x1_0000_0000 + (if FromZero(file) then 0 else 32) ==>
          forall a: nat, i: nat :: Belongs(file, a, i) ==> a in memory)
  }

  lemma FieldIs(h: seq<Byte>, i: nat)
    requires |h| == HEADER && i < 8
    ensures Word(h, i) == Field(h, 4 * i)
  {
  }

  lemma Magics(h: seq<Byte>)
    requires |h| == HEADER
    ensures Offsets(h) == if FromZero(h) then Accepted(0, if Word(h, 1) != 0 then PAGE_SIZE else 0, 0)
                          else if FromPage(h) then Accepted(PAGE_SIZE, 0, 0) else Rejected
  {
    var w := h[0] as int + 0x100 * h[1] as int;
    assert Word(h, 0) == w + 0x1_0000 * (h[2] as int + 0x100 * h[3] as int);
    assert Word(h, 0) % 0x1_0000 == w;
  }

  /** do_aout_hdr refuses exactly those; else it sets the offsets that put the
      image where it belongs. A file with ZMAGIC and no text is always refused. */
  lemma HeaderExactly(h: seq<Byte>, host: Host)
    requires |h| == HEADER
    ensures DoAoutHdr(h, host) == Rejected <==> Refused(h, host)
    ensures FromZero(h) && Field(h, 4) == 0 ==> Refused(h, host)
    ensures !Refused(h, host) ==>
              DoAoutHdr(h, host) == (if FromZero(h) then Accepted(0, 4096, 4096 + Field(h, 4) + Field(h, 8))
                                     else Accepted(4096, 0, Field(h, 4) + Field(h, 8)))
  {
    hide Word, Field, Offsets;
    Magics(h);
    FieldIs(h, 1);
    FieldIs(h, 2);
    FieldIs(h, 3);
    FieldIs(h, 5);
  }

  /** An accepted image starts on the first or the second page of the file and
      is not empty: its entry point lies in its text, which is whole pages. */
  predicate Sensible(v: Verdict) {
    v.Accepted? ==> (v.fileOffset == 0 || v.fileOffset == PAGE_SIZE) && v.fileOffset + PAGE_SIZE <= v.fileEnd
  }

  lemma HeaderSensible(h: seq<Byte>, host: Host)
    requires |h| == HEADER
    ensures Sensible(DoAoutHdr(h, host))
  {
    hide Word;
    var text := Word(h, 1);
    if text % PAGE_SIZE == 0 && text > 0 {
      assert text >= PAGE_SIZE;
    }
  }

  /** Where copying starts. */
  function Start(v: Verdict): nat
    requires v.Accepted?
  {
    if v.fileOffset < HEADER then HEADER else v.fileOffset
  }

  /** The kernel's min takes unsigned ints: both arguments lose all but 32 bits. */
  function MinU(a: nat, b: nat): nat {
    if a % 0x1_0000_0000 <= b % 0x1_0000_0000 then a % 0x1_0000_0000 else b % 0x1_0000_0000
  }

  function Min(a: nat, b: nat): nat {
    if a <= b then a else b
  }

  /** Small enough for that. */
  predicate Fits(v: Verdict) {
    v.Accepted? ==> v.fileEnd - Start(v) < 0x1_0000_0000
  }

  /** A call that starts at `output` with `siz` bytes copies all that it should. */
  predicate CopiesWhole(v: Verdict, output: nat, siz: nat)
    requires v.Accepted? && output < v.fileEnd
  {
    MinU(siz, v.fileEnd - output) == Min(siz, v.fileEnd - output)
  }

  /** Exactly then every call copies all that it should, wherever it starts and
      however long its piece. Otherwise a call that starts 2^32 bytes before
      the end copies nothing. */
  lemma CopiesAll(v: Verdict)
    requires Sensible(v) && v.Accepted?
    ensures Fits(v) <==> forall output: nat, siz: nat {:trigger CopiesWhole(v, output, siz)} ::
              Start(v) <= output < v.fileEnd && siz < INT_MAX ==> CopiesWhole(v, output, siz)
  {
    if !Fits(v) {
      assert !CopiesWhole(v, v.fileEnd - 0x1_0000_0000, 1);
    }
  }

  /** A header for 0xfffff000 bytes of text and 0x2000 of data. Where the limits
      allow it, it is accepted, and the last byte of a call that starts 2^32
      bytes before its end is not copied. */
  const HUGE: seq<Byte> := [0x0b, 0x01, 0, 0, 0x00, 0xf0, 0xff, 0xff, 0x00, 0x20, 0, 0, 0, 0, 0, 0,
                            0, 0, 0, 0, 0, 0, 0, 0, 0, 0, 0, 0, 0, 0, 0, 0]

  lemma HugeDoesNotFit()
    ensures |HUGE| == HEADER
    ensures var v := DoAoutHdr(HUGE, Host(0xffff_f000, 0x2000, true));
            v.Accepted? && !Fits(v) && Start(v) <= v.fileEnd - 0x1_0000_0000 && !CopiesWhole(v, v.fileEnd - 0x1_0000_0000, 1)
  {
    assert Word(HUGE, 0) == 0x10b && Word(HUGE, 1) == 0xffff_f000 && Word(HUGE, 2) == 0x2000;
    assert Word(HUGE, 3) == 0 && Word(HUGE, 5) == 0;
  }

  predicate Inside(a: nat, base: nat, n: int) {
    base <= a < base + n
  }

  /** The memory with `bytes` at `base`, and nothing else. */
  function Placed(base: nat, bytes: seq<Byte>): map<nat, Byte> {
    map a: nat | base <= a < base + |bytes| && Inside(a, base, |bytes|) :: bytes[a - base]
  }

  /** copyout to an address of the new process. */
  function Copyout(memory: map<nat, Byte>, p: seq<Byte>, at: nat): map<nat, Byte> {
    memory + Placed(at, p)
  }

  /** The bytes [file_offset, file_end) of the file, as far as it goes. */
  function Loaded(v: Verdict, file: seq<Byte>): seq<Byte>
    requires v.Accepted? && v.fileOffset <= v.fileEnd
  {
    if |file| <= v.fileOffset then [] else file[v.fileOffset..Min(v.fileEnd, |file|)]
  }

  /** The memory the first part of a file stands for, cut however it may be:
      those bytes at virtual_offset and onward. */
  function Image(v: Verdict, file: seq<Byte>): map<nat, Byte>
    requires v.Accepted? && v.fileOffset <= v.fileEnd
  {
    Placed(v.virtualOffset, Loaded(v, file))
  }

  lemma PlacedMore(base: nat, a: seq<Byte>, b: seq<Byte>)
    ensures Placed(base, a + b) == Copyout(Placed(base, a), b, base + |a|)
  {
  }

  /** Limits that add up to less than 2^32 see to it. */
  lemma LimitsFit(h: seq<Byte>, host: Host)
    requires |h| == HEADER && host.maxtsiz + host.limData < 0x1_0000_0000
    ensures Fits(DoAoutHdr(h, host))
  {
    hide Word;
  }

  /** What one piece adds to the image. */
  lemma ImageMore(v: Verdict, file: seq<Byte>, piece: seq<Byte>)
    requires v.Accepted? && v.fileOffset <= |file| && |file| + |piece| <= v.fileEnd
    ensures Image(v, file + piece) == Copyout(Image(v, file), piece, v.virtualOffset + (|file| - v.fileOffset))
  {
    hide Placed, Copyout;
    assert Loaded(v, file + piece) == Loaded(v, file) + piece;
    PlacedMore(v.virtualOffset, Loaded(v, file), piece);
  }

  /** Bytes outside [file_offset, file_end) leave no trace. */
  lemma ImageSame(v: Verdict, file: seq<Byte>, piece: seq<Byte>)
    requires v.Accepted? && v.fileOffset <= v.fileEnd
    requires |file| + |piece| <= v.fileOffset || v.fileEnd <= |file| || piece == []
    ensures Image(v, file + piece) == Image(v, file)
  {
    hide Placed;
    assert Loaded(v, file + piece) == Loaded(v, file);
  }

  /** What is in memory is right, and if `whole` nothing is missing. */
  predicate Holds(memory: map<nat, Byte>, v: Verdict, file: seq<Byte>, whole: bool)
    requires v.Accepted? && v.fileOffset <= v.fileEnd
  {
    && (forall a :: a in memory ==> a in Image(v, file) && memory[a] == Image(v, file)[a])
    && (whole ==> memory == Image(v, file))
  }

  lemma HoldsMore(memory: map<nat, Byte>, v: Verdict, file: seq<Byte>, piece: seq<Byte>, whole: bool)
    requires v.Accepted? && v.fileOffset <= v.fileEnd && Holds(memory, v, file, whole)
    requires whole ==> |file| + |piece| <= v.fileOffset || v.fileEnd <= |file| || piece == []
    ensures Holds(memory, v, file + piece, whole)
  {
    if whole {
      ImageSame(v, file, piece);
    }
  }

  lemma HoldsCopied(memory: map<nat, Byte>, v: Verdict, file: seq<Byte>, piece: seq<Byte>, whole: bool)
    requires v.Accepted? && v.fileOffset <= |file| && |file| + |piece| <= v.fileEnd && Holds(memory, v, file, whole)
    ensures Holds(Copyout(memory, piece, v.virtualOffset + (|file| - v.fileOffset)), v, file + piece, whole)
  {
    ImageMore(v, file, piece);
  }

  lemma HeldIsImaged(memory: map<nat, Byte>, file: seq<Byte>, host: Host)
    requires |file| >= HEADER && !Refused(file[..HEADER], host)
    requires var v := DoAoutHdr(file[..HEADER], host);
             v.Accepted? && Sensible(v) && Holds(memory, v, file, Fits(v))
    ensures Imaged(file, memory)
  {
    var h := file[..HEADER];
    HeaderExactly(h, host);
    assert Field(h, 4) == Field(file, 4) && Field(h, 8) == Field(file, 8);
    assert FromZero(h) == FromZero(file) && FromPage(h) == FromPage(file);
    hide DoAoutHdr, Refused, Field;
    var v := DoAoutHdr(h, host);
    forall a: nat, i: nat | Belongs(file, a, i)
      ensures a in Image(v, file) && Image(v, file)[a] == file[i]
    {
      assert Loaded(v, file)[a - v.virtualOffset] == file[i];
    }
  }

  class Writer {
    const host: Host
    var aOut: seq<Byte>
    var gotheader: bool
    var output: nat
    var verdict: Verdict
    var memory: map<nat, Byte>
    var error: bool
    /** The bytes received so far. */
    ghost var file: seq<Byte>

    ghost predicate Valid()
      reads this
    {
      && !error && output == |file| && aOut == file[..Min(HEADER, |file|)]
      && (gotheader <==> |file| >= HEADER)
      && (gotheader ==> verdict == DoAoutHdr(file[..HEADER], host) && verdict.Accepted? && Sensible(verdict))
      && (gotheader ==> Holds(memory, verdict, file, Fits(verdict)))
      && (!gotheader ==> memory == map[])
    }

    constructor (h: Host)
      ensures Valid() && file == [] && host == h
    {
      host, aOut, gotheader, output, memory, error, file := h, [], false, 0, map[], false, [];
      verdict := Rejected;
    }

    /** Flush. Every byte in memory is right; if the offsets fit, none is missing,
        so that memory depends on the bytes received alone and not on how they
        were cut. A header that is refused ends it, with nothing written. */
    method Flush(ptr: seq<Byte>) returns (enoexec: bool)
      requires Valid() && |ptr| < INT_MAX
      modifies this
      ensures file == old(file) + ptr
      ensures enoexec == error
      ensures enoexec <==> old(output) < HEADER <= |file| && Refused(file[..HEADER], host)
      ensures !enoexec && |file| >= HEADER ==> !Refused(file[..HEADER], host) && Imaged(file, memory)
      ensures enoexec ==> memory == map[] && gotheader
      ensures !enoexec ==> Valid()
    {
      hide DoAoutHdr, Image, Copyout, Holds, Refused, Imaged;
      if output >= HEADER {
        assert file[..HEADER] == (file + ptr)[..HEADER];
        HeaderExactly(file[..HEADER], host);
      }
      var p := ptr;
      ghost var all := file + ptr;
      file := file + ptr;
      if output < HEADER {
        var i := MinU(|p|, HEADER - output);
        aOut := aOut + p[..i];
        output := output + i;
        p := p[i..];
        assert aOut == all[..output] && p == all[output..];
        if output == HEADER {
          gotheader := true;
          verdict := DoAoutHdr(aOut, host);
          HeaderExactly(aOut, host);
          assert aOut == all[..HEADER];
          if verdict.Rejected? {
            error := true;
            return true;
          }
          HeaderSensible(aOut, host);
          FirstHolds(verdict, aOut);
          if verdict.fileOffset == 0 {
            memory := Copyout(memory, aOut, verdict.virtualOffset);
          }
        }
      }
      assert p == all[output..];
      assert output >= HEADER ==> all[..output][..HEADER] == all[..HEADER];
      if gotheader {
        Body(p, all);
        HeldIsImaged(memory, file, host);
      } else {
        assert p == [];
        output := output + |p|;
      }
      enoexec := false;
    }

    /** The rest of Flush, from line 365 on. */
    method Body(p0: seq<Byte>, ghost all: seq<Byte>)
      requires gotheader && verdict.Accepted? && Sensible(verdict) && |p0| < INT_MAX
      requires HEADER <= output <= |all| && p0 == all[output..] && Holds(memory, verdict, all[..output], Fits(verdict))
      modifies `output, `memory
      ensures output == |all| && Holds(memory, verdict, all, Fits(verdict))
    {
      hide Image, Copyout, MinU, Holds;
      var p := p0;
      if output < verdict.fileOffset && output + |p| > verdict.fileOffset {
        SmallMin(|p|, verdict.fileOffset - output);
        p := Pass(p, MinU(|p|, verdict.fileOffset - output), all);
      }
      if output >= verdict.fileOffset && output < verdict.fileEnd {
        CutMin(|p|, verdict.fileEnd - output);
        if Fits(verdict) {
          SmallMin(|p|, verdict.fileEnd - output);
        }
        p := CopyPiece(p, MinU(|p|, verdict.fileEnd - output), all);
      }
      p := Pass(p, |p|, all);
      assert all[..output] == all;
    }

    /** `i` bytes that are not copied: none of the image, if the offsets fit. */
    method Pass(p0: seq<Byte>, i: nat, ghost all: seq<Byte>) returns (p: seq<Byte>)
      requires verdict.Accepted? && verdict.fileOffset <= verdict.fileEnd && output <= |all| && i <= |p0|
      requires p0 == all[output..] && Holds(memory, verdict, all[..output], Fits(verdict))
      requires Fits(verdict) ==> output + i <= verdict.fileOffset || verdict.fileEnd <= output || i == 0
      modifies `output
      ensures output == old(output) + i <= |all| && p == all[output..] && Holds(memory, verdict, all[..output], Fits(verdict))
    {
      hide Image, Holds;
      assert all[..output] + p0[..i] == all[..output + i];
      HoldsMore(memory, verdict, all[..output], p0[..i], Fits(verdict));
      output := output + i;
      p := p0[i..];
    }

    /** `i` bytes that are. */
    method CopyPiece(p0: seq<Byte>, i: nat, ghost all: seq<Byte>) returns (p: seq<Byte>)
      requires verdict.Accepted? && verdict.fileOffset <= output <= |all| && output + i <= verdict.fileEnd && i <= |p0|
      requires p0 == all[output..] && Holds(memory, verdict, all[..output], Fits(verdict))
      modifies `output, `memory
      ensures output == old(output) + i <= |all| && p == all[output..] && Holds(memory, verdict, all[..output], Fits(verdict))
    {
      hide Image, Copyout, Holds;
      assert all[..output] + p0[..i] == all[..output + i];
      HoldsCopied(memory, verdict, all[..output], p0[..i], Fits(verdict));
      memory := Copyout(memory, p0[..i], verdict.virtualOffset + (output - verdict.fileOffset));
      output := output + i;
      p := p0[i..];
    }
  }

  lemma SmallMin(a: nat, b: nat)
    requires a < 0x1_0000_0000 && b < 0x1_0000_0000
    ensures MinU(a, b) == Min(a, b)
  {
  }

  lemma CutMin(a: nat, b: nat)
    ensures MinU(a, b) <= a && MinU(a, b) <= b
  {
  }

  lemma FirstHolds(v: Verdict, h: seq<Byte>)
    requires v.Accepted? && Sensible(v) && |h| == HEADER
    ensures Holds(if v.fileOffset == 0 then Copyout(map[], h, v.virtualOffset) else map[], v, h, Fits(v))
  {
    hide Image, Copyout;
    FirstImage(v, h);
  }

  lemma FirstImage(v: Verdict, h: seq<Byte>)
    requires v.Accepted? && Sensible(v) && |h| == HEADER
    ensures Image(v, h) == if v.fileOffset == 0 then Copyout(map[], h, v.virtualOffset) else map[]
  {
    assert v.fileOffset == 0 ==> Loaded(v, h) == h;
  }

  /** All the calls inflate makes, in order, until one of them fails. Two ways
      of cutting the same file end in the same memory, if the offsets fit. */
  method FlushAll(host: Host, pieces: seq<seq<Byte>>) returns (w: Writer, enoexec: bool)
    requires forall i :: 0 <= i < |pieces| ==> |pieces[i]| < INT_MAX
    ensures var file := Concat(pieces);
            && (enoexec <==> |file| >= HEADER && Refused(file[..HEADER], host))
            && (!enoexec ==> w.output == |file|)
            && (!enoexec && |file| >= HEADER ==> Imaged(file, w.memory))
            && (enoexec || |file| < HEADER ==> w.memory == map[])
  {
    hide DoAoutHdr, Image, Refused, Imaged;
    w := new Writer(host);
    var i := 0;
    enoexec := false;
    while i < |pieces| && !enoexec
      invariant 0 <= i <= |pieces| && fresh(w) && w.host == host
      invariant w.file == Concat(pieces[..i]) && enoexec == w.error
      invariant if enoexec then |w.file| >= HEADER && Refused(w.file[..HEADER], host) && w.memory == map[] else w.Valid()
      invariant !enoexec && |w.file| >= HEADER ==> Imaged(w.file, w.memory) && !Refused(w.file[..HEADER], host)
    {
      assert pieces[..i + 1][..i] == pieces[..i];
      ConcatPrefix(pieces, i + 1);
      assert |Concat(pieces[..i + 1])| >= HEADER ==> Concat(pieces[..i + 1])[..HEADER] == Concat(pieces)[..HEADER];
      enoexec := w.Flush(pieces[i]);
      i := i + 1;
    }
    assert pieces[..|pieces|] == pieces;
    ConcatPrefix(pieces, i);
    assert |w.file| >= HEADER ==> w.file[..HEADER] == Concat(pieces)[..HEADER];
  }

  lemma {:induction false} ConcatPrefix(pieces: seq<seq<Byte>>, i: nat)
    requires i <= |pieces|
    ensures Concat(pieces[..i]) <= Concat(pieces)
  {
    if i == |pieces| {
      assert pieces[..i] == pieces;
    } else {
      ConcatPrefix(pieces[..|pieces| - 1], i);
      assert pieces[..|pieces| - 1][..i] == pieces[..i];
    }
  }
}
