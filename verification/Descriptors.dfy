/** The descriptor table of kern_descrip.c: a bitmap of 64-bit words with two
    cached indices, kept in agreement with a plain set of integers. */
module Descriptors {

  const NDFILE: nat := 20

  /** A word of the map (NDSLOTTYPE), bit 0 first. */
  type Word = w: seq<bool> | |w| == 64 witness seq(64, i => false)

  function Zero(): Word {
    seq(64, i => false)
  }

  function Not(w: Word): Word {
    seq(64, i requires 0 <= i < 64 => !w[i])
  }

  function And(v: Word, w: Word): Word {
    seq(64, i requires 0 <= i < 64 => v[i] && w[i])
  }

  function Or(v: Word, w: Word): Word {
    seq(64, i requires 0 <= i < 64 => v[i] || w[i])
  }

  /** ~(~0 << k) and ~(~0 >> (64 - k)): the bits below k, and from k on. */
  function Below(k: nat): Word {
    seq(64, i => i < k)
  }

  function From(k: nat): Word {
    seq(64, i => k <= i)
  }

  function NdSlot(fd: nat): nat { fd / 64 }

  function BitNo(fd: nat): (i: nat)
    ensures i < 64
  {
    fd % 64
  }

  function NdBit(fd: nat): Word {
    seq(64, i => i == BitNo(fd))
  }

  function NdSlots(n: nat): nat { (n + 63) / 64 }

  lemma SlotBit(off: nat, i: nat)
    requires i < 64
    ensures NdSlot(off * 64 + i) == off && BitNo(off * 64 + i) == i
  {
  }

  /** ffsl: one more than the index of the lowest bit set, 0 if there is none. */
  function Ffsl(w: Word): (r: nat)
    ensures r <= 64 && (r == 0 <==> w == Zero())
    ensures r > 0 ==> w[r - 1] && forall i :: 0 <= i < r - 1 ==> !w[i]
  {
    FirstSet(w, 0)
  }

  function FirstSet(w: Word, i: nat): (r: nat)
    requires i <= 64 && forall j :: 0 <= j < i ==> !w[j]
    ensures r <= 64 && (r == 0 <==> w == Zero())
    ensures r > 0 ==> w[r - 1] && forall j :: 0 <= j < r - 1 ==> !w[j]
    decreases 64 - i
  {
    if i == 64 then
      assert w == Zero();
      0
    else if w[i] then i + 1 else FirstSet(w, i + 1)
  }

  /** flsl: one more than the index of the highest bit set, 0 if there is none. */
  function Flsl(w: Word): (r: nat)
    ensures r <= 64 && (r == 0 <==> w == Zero())
    ensures r > 0 ==> w[r - 1] && forall i :: r <= i < 64 ==> !w[i]
  {
    LastSet(w, 64)
  }

  function LastSet(w: Word, i: nat): (r: nat)
    requires i <= 64 && forall j :: i <= j < 64 ==> !w[j]
    ensures r <= 64 && (r == 0 <==> w == Zero())
    ensures r > 0 ==> w[r - 1] && forall j :: r <= j < 64 ==> !w[j]
  {
    if i == 0 then
      assert w == Zero();
      0
    else if w[i - 1] then i else LastSet(w, i - 1)
  }

  // ---------------------------------------------------------------- the set the map stands for

  predicate Bit(words: seq<Word>, fd: nat) {
    NdSlot(fd) < |words| && words[NdSlot(fd)][BitNo(fd)]
  }

  ghost function Used(words: seq<Word>): set<nat> {
    set fd: nat | 0 <= fd < 64 * |words| && Bit(words, fd)
  }

  ghost predicate LeastUnused(used: set<nat>, low: nat, fd: nat) {
    low <= fd && fd !in used && forall k: nat :: low <= k < fd ==> k in used
  }

  /** `last` is the greatest member below `limit`, or -1 if there is none. */
  ghost predicate LastBelow(used: set<nat>, limit: nat, last: int) {
    && -1 <= last < limit && (last >= 0 ==> last in used)
    && forall k: nat :: last < k < limit ==> k !in used
  }

  ghost predicate Greatest(used: set<nat>, last: int) {
    -1 <= last && (last >= 0 ==> last in used) && forall k: nat :: k in used ==> k <= last
  }

  lemma UsedBit(words: seq<Word>, fd: nat)
    ensures fd in Used(words) <==> Bit(words, fd)
  {
  }

  /** map[NDSLOT(fd)] |= NDBIT(fd) adds fd and nothing else. */
  lemma UsedOr(words: seq<Word>, fd: nat)
    requires NdSlot(fd) < |words|
    ensures Used(words[NdSlot(fd) := Or(words[NdSlot(fd)], NdBit(fd))]) == Used(words) + {fd}
  {
    var now := words[NdSlot(fd) := Or(words[NdSlot(fd)], NdBit(fd))];
    forall k: nat
      ensures Bit(now, k) <==> Bit(words, k) || k == fd
    {
      SameBit(k, fd);
    }
  }

  lemma UsedAndNot(words: seq<Word>, fd: nat)
    requires NdSlot(fd) < |words|
    ensures Used(words[NdSlot(fd) := And(words[NdSlot(fd)], Not(NdBit(fd)))]) == Used(words) - {fd}
  {
    var now := words[NdSlot(fd) := And(words[NdSlot(fd)], Not(NdBit(fd)))];
    forall k: nat
      ensures Bit(now, k) <==> Bit(words, k) && k != fd
    {
      SameBit(k, fd);
    }
  }

  lemma SameBit(k: nat, fd: nat)
    ensures NdSlot(k) == NdSlot(fd) && BitNo(k) == BitNo(fd) <==> k == fd
  {
  }

  /** The scan of fd_first_free, given where it found a clear bit. */
  lemma FoundFree(words: seq<Word>, low: nat, off: nat, i: nat)
    requires off < |words| && i < 64 && !words[off][i] && low <= off * 64 + i
    requires forall k: nat :: low <= k < off * 64 ==> Bit(words, k)
    requires forall j :: 0 <= j < i && low <= off * 64 + j ==> words[off][j]
    ensures LeastUnused(Used(words), low, off * 64 + i)
  {
    SlotBit(off, i);
    forall k: nat | low <= k < off * 64 + i
      ensures k in Used(words)
    {
      if k >= off * 64 {
        SlotBit(off, k - off * 64);
      }
    }
  }

  lemma FoundUsed(words: seq<Word>, limit: nat, off: nat, i: nat)
    requires off < |words| && i < 64 && words[off][i] && off * 64 + i < limit
    requires forall k: nat :: (off + 1) * 64 <= k < limit ==> !Bit(words, k)
    requires forall j :: i < j < 64 && off * 64 + j < limit ==> !words[off][j]
    ensures LastBelow(Used(words), limit, off * 64 + i)
  {
    SlotBit(off, i);
    forall k: nat | off * 64 + i < k < limit
      ensures k !in Used(words)
    {
      if k < (off + 1) * 64 {
        SlotBit(off, k - off * 64);
      }
    }
  }

  /** Where fd_last_used really looks: when `size` is a multiple of the word
      length it starts with the word after, so that bits from `size` to the end
      of that word count too. */
  function Reach(size: nat): nat {
    if BitNo(size) != 0 then size else size + 64
  }

  /** What fd_last_used promises ("not exceeding size - 1") it delivers if and
      only if it does not start on a word with a bit set at or above `size`. */
  lemma LastUsedAsPromised(used: set<nat>, size: nat, last: int)
    requires LastBelow(used, Reach(size), last)
    ensures LastBelow(used, size, last) <==> (BitNo(size) != 0 || forall k: nat :: size <= k < size + 64 ==> k !in used)
  {
    if BitNo(size) == 0 && last >= size {
      assert last in used;
    }
  }

  /** With descriptor 64 in use and size 64 it returns 64. */
  lemma LastUsedTooFar()
    ensures LastBelow({64}, Reach(64), 64) && !LastBelow({64}, 64, 64)
  {
  }

  /** Its only caller, fdunused, calls it for the greatest descriptor, which it
      has just marked unused. */
  lemma CallerKeepsTo(used: set<nat>, fd: nat, last: int)
    requires Greatest(used, fd) && LastBelow(used - {fd}, Reach(fd), last)
    ensures LastBelow(used - {fd}, fd, last) && Greatest(used - {fd}, last)
  {
    LastUsedAsPromised(used - {fd}, fd, last);
  }

  // ---------------------------------------------------------------- the descriptor table

  /** An entry of fd_ofiles: no file, or one that may (DFLAG_PASSABLE) or may
      not be copied to another process. */
  datatype Entry = NoFile | Open(fp: nat, passable: bool)

  datatype Allocated = Fd(fd: nat) | EMFILE

  class Filedesc {
    var nfiles: nat
    var ofiles: array<Entry>
    var bits: array<Word>
    var freefile: int
    var lastfile: int

    ghost predicate Shaped()
      reads this
    {
      nfiles > 0 && ofiles.Length == nfiles && bits.Length == NdSlots(nfiles)
    }

    ghost function Set(): set<nat>
      reads this, bits
    {
      Used(bits[..])
    }

    /** Only entries in use name files, and only entries of the table are used. */
    ghost predicate Entries()
      requires Shaped()
      reads this, bits, ofiles
    {
      && (forall fd: nat :: fd in Set() ==> fd < nfiles)
      && (forall fd: nat :: fd < nfiles && ofiles[fd].Open? ==> fd in Set())
    }

    /** The cached indices: the least unused descriptor and the greatest used. */
    ghost predicate Valid()
      reads this, bits, ofiles
    {
      Shaped() && Entries() && freefile >= 0 && LeastUnused(Set(), 0, freefile) && Greatest(Set(), lastfile)
    }

    /** fdinit: NDFILE entries, none used. */
    constructor ()
      ensures Valid() && Set() == {} && nfiles == NDFILE && lastfile == -1 && fresh(ofiles) && fresh(bits)
      ensures forall fd :: 0 <= fd < nfiles ==> ofiles[fd] == NoFile
    {
      nfiles := NDFILE;
      ofiles := new Entry[NDFILE](i => NoFile);
      bits := new Word[NdSlots(NDFILE)](i => Zero());
      freefile, lastfile := 0, -1;
    }

    /** fd_first_free: the least unused descriptor from `low` on. */
    method FirstFree(low: nat, size: nat) returns (fd: nat)
      requires bits.Length == NdSlots(size) && forall k: nat :: k in Set() ==> k < size
      ensures LeastUnused(Set(), low, fd)
    {
      hide And, Not, From, Bit, Used, Ffsl, LeastUnused;
      LowUnused(Set(), low, size);
      if low >= size {
        return low;
      }
      var off := NdSlot(low);
      if BitNo(low) != 0 {
        var mask := And(From(BitNo(low)), Not(bits[off]));
        if mask != Zero() {
          fd := off * 64 + Ffsl(mask) - 1;
          MaskedFirst(bits[off], BitNo(low));
          FoundFree(bits[..], low, off, Ffsl(mask) - 1);
          return;
        }
        FullFrom(bits[..], low);
        off := off + 1;
      }
      var maxoff := NdSlots(size);
      while off < maxoff
        invariant NdSlot(low) <= off <= maxoff && low <= off * 64
        invariant forall k: nat :: low <= k < off * 64 ==> Bit(bits[..], k)
      {
        if bits[off] != Not(Zero()) {
          NotFirst(bits[off]);
          fd := off * 64 + Ffsl(Not(bits[off])) - 1;
          FoundFree(bits[..], low, off, Ffsl(Not(bits[off])) - 1);
          return;
        }
        WordFull(bits[..], off);
        off := off + 1;
      }
      AllUsed(bits[..], low, size);
      fd := size;
    }

    /** fd_last_used: the greatest used descriptor below Reach(size). */
    method LastUsed(size: nat) returns (last: int)
      requires NdSlot(size) < bits.Length
      ensures LastBelow(Set(), Reach(size), last)
    {
      hide And, Below, Bit, Used, Flsl, LastBelow;
      var off: int := NdSlot(size);
      if BitNo(size) != 0 {
        var mask := And(Below(BitNo(size)), bits[off]);
        if mask != Zero() {
          last := off * 64 + Flsl(mask) - 1;
          MaskedLast(bits[off], BitNo(size));
          FoundUsed(bits[..], size, off, Flsl(mask) - 1);
          return;
        }
        off := off - 1;
        NoneBelow(bits[..], size);
      }
      while off >= 0
        invariant -1 <= off < bits.Length
        invariant forall k: nat :: (off + 1) * 64 <= k < Reach(size) ==> !Bit(bits[..], k)
        invariant (off + 1) * 64 <= Reach(size)
        decreases off
      {
        if bits[off] != Zero() {
          last := off * 64 + Flsl(bits[off]) - 1;
          FoundUsed(bits[..], Reach(size), off, Flsl(bits[off]) - 1);
          return;
        }
        WordClear(bits[..], off);
        off := off - 1;
      }
      NoneUsed(bits[..], Reach(size));
      last := -1;
    }

    /** fdused_init: the bit alone. */
    method MarkBit(fd: nat)
      requires Shaped() && fd < nfiles && fd !in Set()
      modifies bits
      ensures Set() == old(Set()) + {fd}
    {
      hide Used, Bit, Or;
      UsedOr(bits[..], fd);
      bits[NdSlot(fd)] := Or(bits[NdSlot(fd)], NdBit(fd));
      assert bits[..] == old(bits[..])[NdSlot(fd) := bits[NdSlot(fd)]];
    }

    /** fdused: a table entry comes into use. */
    method MarkUsed(fd: nat)
      requires Valid() && fd < nfiles && fd !in Set()
      modifies `freefile, `lastfile, bits
      ensures Valid() && Set() == old(Set()) + {fd}
    {
      MarkBit(fd);
      if fd > lastfile {
        lastfile := fd;
      }
      if fd == freefile {
        freefile := FirstFree(fd, nfiles);
      }
    }

    /** fdunused: an entry without a file goes out of use. */
    method MarkUnused(fd: nat)
      requires Valid() && fd in Set() && ofiles[fd] == NoFile
      modifies `freefile, `lastfile, bits
      ensures Valid() && Set() == old(Set()) - {fd}
    {
      UsedAndNot(bits[..], fd);
      bits[NdSlot(fd)] := And(bits[NdSlot(fd)], Not(NdBit(fd)));
      assert Set() == old(Set()) - {fd};
      if fd < freefile {
        freefile := fd;
      }
      if fd == lastfile {
        lastfile := LastUsed(fd);
        CallerKeepsTo(old(Set()), fd, lastfile);
      }
    }

    /** fdgrowtable: room for at least nfd entries, in whole words. */
    method GrowTable(nfd: nat)
      requires Valid()
      modifies `nfiles, `ofiles, `bits
      ensures Valid() && Set() == old(Set())
      ensures nfiles == if NdSlots(nfd) * 64 <= old(nfiles) then old(nfiles) else NdSlots(nfd) * 64
      ensures nfd <= nfiles && old(nfiles) <= nfiles
      ensures forall fd :: 0 <= fd < nfiles ==> ofiles[fd] == if fd < old(nfiles) then old(ofiles[fd]) else NoFile
      ensures (ofiles == old(ofiles) || fresh(ofiles)) && (bits == old(bits) || fresh(bits))
    {
      hide Used, Bit, LeastUnused, Greatest;
      var onfiles := nfiles;
      var nnfiles := NdSlots(nfd) * 64;
      if nnfiles <= onfiles {
        return;
      }
      var otable, omap := ofiles, bits;
      var ntable := new Entry[nnfiles](i requires 0 <= i < nnfiles reads otable => if i < otable.Length then otable[i] else NoFile);
      if NdSlots(nnfiles) > NdSlots(onfiles) {
        var nmap := new Word[NdSlots(nnfiles)](i => Zero());
        forall i | 0 <= i < omap.Length {
          nmap[i] := omap[i];
        }
        bits := nmap;
      }
      nfiles, ofiles := nnfiles, ntable;
      UsedGrown(omap[..], bits[..]);
      assert omap[..] == old(bits[..]);
      assert Set() == old(Set());
    }

    /** fdgrowtable_exp: at least doubles. */
    method GrowTableExp(nfd: nat)
      requires Valid()
      modifies `nfiles, `ofiles, `bits
      ensures Valid() && Set() == old(Set())
      ensures nfd <= nfiles && 2 * old(nfiles) <= nfiles
      ensures nfiles == NdSlots(if 2 * old(nfiles) < nfd then nfd else 2 * old(nfiles)) * 64
      ensures forall fd :: 0 <= fd < nfiles ==> ofiles[fd] == if fd < old(nfiles) then old(ofiles[fd]) else NoFile
      ensures (ofiles == old(ofiles) || fresh(ofiles)) && (bits == old(bits) || fresh(bits))
    {
      var nfd1 := nfiles * 2;
      if nfd1 < nfd {
        nfd1 := nfd;
      }
      GrowTable(nfd1);
    }

    /** fdalloc: the least unused descriptor from `minfd` on, unless that is
        `maxfd` or more. */
    method Alloc(minfd: nat, maxfd: nat) returns (r: Allocated)
      requires Valid()
      modifies this, bits
      ensures Valid() && Extends(old(ofiles[..]), ofiles[..])
      ensures (bits == old(bits) || fresh(bits)) && (ofiles == old(ofiles) || fresh(ofiles))
      ensures r.Fd? ==> r.fd < maxfd && LeastUnused(old(Set()), minfd, r.fd) && Set() == old(Set()) + {r.fd}
      ensures r == EMFILE ==> Set() == old(Set()) && nfiles == old(nfiles)
      ensures r == EMFILE ==> forall k: nat :: minfd <= k < maxfd ==> k in Set()
    {
      var low := minfd;
      if freefile > low {
        low := freefile;
      }
      var fd := FirstFree(low, nfiles);
      assert LeastUnused(Set(), minfd, fd);
      if fd >= maxfd {
        return EMFILE;
      }
      if fd >= nfiles {
        var allocfd := if fd * 2 < maxfd then fd * 2 else maxfd;
        GrowTableExp(allocfd);
      }
      MarkUsed(fd);
      r := Fd(fd);
    }

    /** The loop of fdallocn, which stops at the first failure. */
    method AllocUpTo(n: nat, maxfd: nat) returns (fds: seq<nat>)
      requires Valid()
      modifies this, bits
      ensures Valid() && Extends(old(ofiles[..]), ofiles[..]) && |fds| <= n
      ensures (bits == old(bits) || fresh(bits)) && (ofiles == old(ofiles) || fresh(ofiles))
      ensures Set() == old(Set()) + Elems(fds) && Taken(old(Set()), fds, maxfd)
      ensures |fds| < n ==> |Unused(old(Set()), maxfd)| == |fds|
    {
      hide Used, Bit, LeastUnused, Greatest, Taken, Elems, Unused, Extends;
      ghost var was, entries := Set(), ofiles[..];
      fds := [];
      NoneTaken(was, maxfd);
      ExtendsSelf(entries);
      while |fds| < n
        invariant Valid() && Extends(entries, ofiles[..]) && |fds| <= n
        invariant (bits == old(bits) || fresh(bits)) && (ofiles == old(ofiles) || fresh(ofiles))
        invariant Set() == was + Elems(fds) && Taken(was, fds, maxfd)
      {
        ghost var before := ofiles[..];
        var r := Alloc(0, maxfd);
        ExtendsTwice(entries, before, ofiles[..]);
        if r == EMFILE {
          AllTaken(was, fds, maxfd);
          return;
        }
        TakenMore(was, fds, r.fd, maxfd);
        fds := fds + [r.fd];
      }
    }

    /** fdallocn: `n` descriptors, or none at all. It fails exactly when fewer
        than `n` are unused below `maxfd`. */
    method AllocN(n: nat, maxfd: nat) returns (ok: bool, fds: seq<nat>)
      requires Valid()
      modifies this, bits
      ensures Valid() && Extends(old(ofiles[..]), ofiles[..])
      ensures ok <==> n <= |Unused(old(Set()), maxfd)|
      ensures ok ==> |fds| == n && Set() == old(Set()) + Elems(fds)
      ensures ok ==> Taken(old(Set()), fds, maxfd)
      ensures !ok ==> Set() == old(Set()) && freefile == old(freefile) && lastfile == old(lastfile)
    {
      hide Used, Bit, LeastUnused, Greatest, Taken, Elems, Unused, Extends;
      ghost var was, entries := Set(), ofiles[..];
      fds := AllocUpTo(n, maxfd);
      ok := |fds| == n;
      TakenFit(was, fds, maxfd);
      if !ok {
        NewEntriesEmpty(was, entries, ofiles[..]);
        Rollback(was, fds, maxfd);
        SameCaches(was, old(freefile), old(lastfile), freefile, lastfile);
      }
    }

    /** Lines 1709-1710: gives the descriptors back, the last one first. */
    method Rollback(ghost was: set<nat>, fds: seq<nat>, ghost maxfd: nat)
      requires Valid() && Set() == was + Elems(fds) && Taken(was, fds, maxfd)
      requires forall fd: nat :: fd < nfiles && fd !in was ==> ofiles[fd] == NoFile
      modifies `freefile, `lastfile, bits
      ensures Valid() && Set() == was
    {
      hide Used, Bit, LeastUnused, Greatest, Taken, Elems;
      assert fds[..|fds|] == fds;
      var i := |fds| - 1;
      while i >= 0
        invariant -1 <= i < |fds| && Valid() && Set() == was + Elems(fds[..i + 1])
        invariant nfiles == old(nfiles) && ofiles[..] == old(ofiles[..]) && bits == old(bits)
      {
        TakenPrefix(was, fds, i, maxfd);
        MarkUnused(fds[i]);
        i := i - 1;
      }
      NoneTaken(was, maxfd);
    }

    /** finstall: the least unused descriptor gets the file. */
    method Finstall(fp: nat, passable: bool, maxfd: nat) returns (r: Allocated)
      requires Valid()
      modifies this, bits, ofiles
      ensures Valid() && old(nfiles) <= nfiles
      ensures r == EMFILE <==> forall k: nat :: k < maxfd ==> k in old(Set())
      ensures r == EMFILE ==> Set() == old(Set())
      ensures r.Fd? ==> r.fd < maxfd && LeastUnused(old(Set()), 0, r.fd) && Set() == old(Set()) + {r.fd}
      ensures forall fd :: 0 <= fd < nfiles ==>
                ofiles[fd] == if r == Fd(fd) then Open(fp, passable) else if fd < old(nfiles) then old(ofiles[fd]) else NoFile
    {
      hide Used, Bit, Greatest;
      r := Alloc(0, maxfd);
      if r.Fd? {
        ofiles[r.fd] := Open(fp, passable);
      }
    }

    /** kern_close up to closefp: the file to close, if the descriptor has one. */
    method Close(fd: nat) returns (r: Entry)
      requires Valid()
      modifies `freefile, `lastfile, bits, ofiles
      ensures Valid()
      ensures r == if fd < nfiles then old(ofiles[fd]) else NoFile
      ensures Set() == if r == NoFile then old(Set()) else old(Set()) - {fd}
      ensures ofiles[..] == if r == NoFile then old(ofiles[..]) else old(ofiles[..])[fd := NoFile]
    {
      hide Used, Bit, LeastUnused, Greatest;
      if fd >= nfiles || ofiles[fd] == NoFile {
        return NoFile;
      }
      r := ofiles[fd];
      ofiles[fd] := NoFile;
      MarkUnused(fd);
    }

    /** kern_dup with FDDUP_FIXED (dup2): `new_` takes over the file of `old_`;
        what it named before is the file to close. */
    method DupFixed(old_: nat, new_: nat, maxfd: nat) returns (ok: bool, delfp: Entry)
      requires Valid()
      modifies this, bits, ofiles
      ensures Valid() && old(nfiles) <= nfiles
      ensures ok <==> new_ < maxfd && old_ < old(nfiles) && old(ofiles[old_]).Open?
      ensures Set() == if ok then old(Set()) + {new_} else old(Set())
      ensures forall fd :: 0 <= fd < nfiles ==>
                ofiles[fd] == if ok && fd == new_ then old(ofiles[old_]) else if fd < old(nfiles) then old(ofiles[fd]) else NoFile
      ensures delfp == if ok && old_ != new_ && new_ < old(nfiles) then old(ofiles[new_]) else NoFile
    {
      hide Used, Bit, LeastUnused, Greatest;
      delfp := NoFile;
      if new_ >= maxfd || old_ >= nfiles || ofiles[old_] == NoFile {
        return false, delfp;
      }
      if old_ == new_ {
        return true, delfp;
      }
      if new_ >= nfiles {
        GrowTableExp(new_ + 1);
      }
      UsedBit(bits[..], new_);
      if !Bit(bits[..], new_) {
        MarkUsed(new_);
      }
      delfp := ofiles[new_];
      ofiles[new_] := ofiles[old_];
      ok := true;
    }

    /** This table has taken over the first `i` entries of `src`. */
    ghost predicate Copying(i: nat, src: seq<Entry>)
      reads this, bits, ofiles
    {
      && i <= |src| && i <= nfiles && Shaped() && Set() == Passable(src[..i])
      && (forall fd: nat :: fd < nfiles ==> ofiles[fd] == if fd < i && IsPassable(src[fd]) then src[fd] else NoFile)
      && (freefile == -1 ==> forall fd: nat :: fd < i ==> fd in Set())
      && (freefile != -1 ==> 0 <= freefile < i && LeastUnused(Set(), 0, freefile))
      && lastfile < i && Greatest(Set(), lastfile)
    }

    /** Lines 1989-2001, for one entry of the other table. */
    method CopyEntry(i: nat, src: array<Entry>)
      requires i < src.Length && i < nfiles && src != ofiles && Copying(i, src[..])
      modifies `freefile, `lastfile, bits, ofiles
      ensures Copying(i + 1, src[..])
    {
      hide Used, Bit;
      PassableMore(src[..], i);
      if src[i] == NoFile || !src[i].passable {
        if freefile == -1 {
          freefile := i;
        }
      } else {
        ofiles[i] := src[i];
        MarkBit(i);
        lastfile := i;
      }
    }

    /** Lines 2003-2004: no gap among the first `i`, so `i` is the first. */
    method CopyEnd(i: nat, src: seq<Entry>)
      requires Copying(i, src)
      modifies `freefile
      ensures Valid() && Set() == Passable(src[..i])
    {
      hide Used, Bit;
      if freefile == -1 {
        freefile := i;
      }
    }

    /** fdcopy: the open descriptors whose files may be passed on, under the
        same numbers; both cached indices are exact again. */
    method Copy() returns (newfdp: Filedesc)
      requires Valid()
      ensures newfdp.Valid() && fresh(newfdp)
      ensures newfdp.Set() == Passable(ofiles[..])
      ensures forall fd: nat :: fd < newfdp.nfiles ==> newfdp.ofiles[fd] == if fd in newfdp.Set() then ofiles[fd] else NoFile
    {
      hide Used, Bit, LeastUnused, Greatest, Passable;
      LastInTable(Set(), lastfile, nfiles);
      newfdp := new Filedesc();
      if lastfile >= newfdp.nfiles {
        newfdp.GrowTable(lastfile + 1);
      }
      newfdp.freefile := -1;
      NonePassable(ofiles[..]);
      var i: nat := 0;
      while i <= lastfile
        invariant i <= lastfile + 1 <= newfdp.nfiles && newfdp.Copying(i, ofiles[..])
        invariant fresh(newfdp) && fresh(newfdp.ofiles) && fresh(newfdp.bits)
      {
        newfdp.CopyEntry(i, ofiles);
        i := i + 1;
      }
      newfdp.CopyEnd(i, ofiles[..]);
      LastPassable(ofiles[..], Set(), lastfile, i);
    }
  }

  predicate IsPassable(e: Entry) {
    e.Open? && e.passable
  }

  ghost function Passable(src: seq<Entry>): set<nat> {
    set fd: nat | fd < |src| && IsPassable(src[fd])
  }

  lemma LastInTable(used: set<nat>, last: int, nfiles: nat)
    requires Greatest(used, last) && forall fd: nat :: fd in used ==> fd < nfiles
    ensures -1 <= last < nfiles
  {
  }

  lemma NonePassable(src: seq<Entry>)
    ensures Passable(src[..0]) == {} && Greatest({}, -1)
  {
  }

  /** No file lies beyond the last descriptor, so the copy is complete. */
  lemma LastPassable(src: seq<Entry>, used: set<nat>, last: int, i: nat)
    requires Greatest(used, last) && i == last + 1 <= |src|
    requires forall fd: nat :: fd < |src| && src[fd].Open? ==> fd in used
    ensures Passable(src[..i]) == Passable(src)
    ensures forall fd: nat :: fd in Passable(src) <==> fd < i && IsPassable(src[fd])
  {
  }

  lemma PassableMore(src: seq<Entry>, i: nat)
    requires i < |src|
    ensures Passable(src[..i + 1]) == if IsPassable(src[i]) then Passable(src[..i]) + {i} else Passable(src[..i])
    ensures i !in Passable(src[..i])
  {
  }

  lemma MaskedFirst(w: Word, k: nat)
    requires And(From(k), Not(w)) != Zero()
    ensures var i := Ffsl(And(From(k), Not(w))) - 1;
            k <= i < 64 && !w[i] && forall j :: k <= j < i ==> w[j]
  {
    var mask := And(From(k), Not(w));
    forall j | k <= j < Ffsl(mask) - 1
      ensures w[j]
    {
      assert !mask[j];
    }
  }

  lemma NotFirst(w: Word)
    requires w != Not(Zero())
    ensures Not(w) != Zero()
    ensures var i := Ffsl(Not(w)) - 1; 0 <= i < 64 && !w[i] && forall j :: 0 <= j < i ==> w[j]
  {
    var v := Not(w);
    assert Not(v) == w;
    forall j | 0 <= j < Ffsl(v) - 1
      ensures w[j]
    {
      assert !v[j];
    }
  }

  lemma MaskedLast(w: Word, k: nat)
    requires And(Below(k), w) != Zero()
    ensures var i := Flsl(And(Below(k), w)) - 1;
            0 <= i < k && i < 64 && w[i] && forall j :: i < j < k && j < 64 ==> !w[j]
  {
    var mask := And(Below(k), w);
    forall j | Flsl(mask) - 1 < j < k && j < 64
      ensures !w[j]
    {
      assert !mask[j];
    }
  }

  lemma UsedGrown(words: seq<Word>, more: seq<Word>)
    requires |words| <= |more| && forall i :: 0 <= i < |more| ==> more[i] == if i < |words| then words[i] else Zero()
    ensures Used(more) == Used(words)
  {
    forall k: nat
      ensures Bit(more, k) <==> Bit(words, k)
    {
    }
  }

  lemma LowUnused(used: set<nat>, low: nat, size: nat)
    requires forall k: nat :: k in used ==> k < size
    ensures low >= size ==> LeastUnused(used, low, low)
  {
  }

  lemma AllUsed(words: seq<Word>, low: nat, size: nat)
    requires forall k: nat :: k in Used(words) ==> k < size
    requires low <= size && forall k: nat :: low <= k < size ==> Bit(words, k)
    ensures LeastUnused(Used(words), low, size)
  {
    forall k: nat
      ensures k in Used(words) <==> Bit(words, k)
    {
      UsedBit(words, k);
    }
  }

  lemma WordFull(words: seq<Word>, off: nat)
    requires off < |words| && words[off] == Not(Zero())
    ensures forall k: nat :: off * 64 <= k < (off + 1) * 64 ==> Bit(words, k)
  {
    forall k: nat | off * 64 <= k < (off + 1) * 64
      ensures Bit(words, k)
    {
      SlotBit(off, k - off * 64);
    }
  }

  lemma WordClear(words: seq<Word>, off: nat)
    requires off < |words| && words[off] == Zero()
    ensures forall k: nat :: off * 64 <= k < (off + 1) * 64 ==> !Bit(words, k)
  {
    forall k: nat | off * 64 <= k < (off + 1) * 64
      ensures !Bit(words, k)
    {
      SlotBit(off, k - off * 64);
    }
  }

  lemma NoneUsed(words: seq<Word>, limit: nat)
    requires forall k: nat :: 0 <= k < limit ==> !Bit(words, k)
    ensures LastBelow(Used(words), limit, -1)
  {
  }

  /** Growth keeps every entry and adds empty ones. */
  ghost predicate Extends(before: seq<Entry>, after: seq<Entry>) {
    && |before| <= |after|
    && forall fd :: 0 <= fd < |after| ==> after[fd] == if fd < |before| then before[fd] else NoFile
  }

  lemma ExtendsSelf(s: seq<Entry>)
    ensures Extends(s, s)
  {
  }

  lemma ExtendsTwice(a: seq<Entry>, b: seq<Entry>, c: seq<Entry>)
    requires Extends(a, b) && Extends(b, c)
    ensures Extends(a, c)
  {
  }

  lemma NewEntriesEmpty(used: set<nat>, before: seq<Entry>, after: seq<Entry>)
    requires Extends(before, after) && forall fd: nat :: fd < |before| && before[fd].Open? ==> fd in used
    ensures forall fd: nat :: fd < |after| && fd !in used ==> after[fd] == NoFile
  {
  }

  ghost function Elems(fds: seq<nat>): set<nat> {
    set fd | fd in fds
  }

  ghost function Unused(used: set<nat>, maxfd: nat): set<nat> {
    (set fd: nat | fd < maxfd && fd !in used)
  }

  /** Descriptors taken one after the other, each the least unused then. */
  ghost predicate Taken(was: set<nat>, fds: seq<nat>, maxfd: nat) {
    && (forall j :: 0 <= j < |fds| ==> TakenAt(was, fds, j))
    && (forall j :: 0 <= j < |fds| ==> fds[j] < maxfd)
    && |Elems(fds)| == |fds|
  }

  ghost predicate TakenAt(was: set<nat>, fds: seq<nat>, j: nat)
    requires j < |fds|
  {
    LeastUnused(was + Elems(fds[..j]), 0, fds[j])
  }

  lemma TakenAtMore(was: set<nat>, fds: seq<nat>, fd: nat, j: nat)
    requires j < |fds| && TakenAt(was, fds, j)
    ensures TakenAt(was, fds + [fd], j)
  {
    hide LeastUnused, Elems;
    assert (fds + [fd])[..j] == fds[..j];
  }

  lemma TakenAtNew(was: set<nat>, fds: seq<nat>, fd: nat)
    requires LeastUnused(was + Elems(fds), 0, fd)
    ensures TakenAt(was, fds + [fd], |fds|)
  {
    hide LeastUnused, Elems;
    assert (fds + [fd])[..|fds|] == fds;
  }

  lemma NoneTaken(was: set<nat>, maxfd: nat)
    ensures Taken(was, [], maxfd) && Elems([]) == {}
  {
  }

  lemma ElemsMore(fds: seq<nat>, fd: nat)
    ensures Elems(fds + [fd]) == Elems(fds) + {fd}
  {
    assert forall x :: x in fds + [fd] <==> x in fds || x == fd;
  }

  lemma TakenMore(was: set<nat>, fds: seq<nat>, fd: nat, maxfd: nat)
    requires Taken(was, fds, maxfd) && fd < maxfd && LeastUnused(was + Elems(fds), 0, fd)
    ensures Taken(was, fds + [fd], maxfd) && Elems(fds + [fd]) == Elems(fds) + {fd}
  {
    assert fd !in Elems(fds);
    hide LeastUnused, Elems, TakenAt;
    ElemsMore(fds, fd);
    forall j | 0 <= j <= |fds|
      ensures TakenAt(was, fds + [fd], j)
    {
      if j < |fds| {
        TakenAtMore(was, fds, fd, j);
      } else {
        TakenAtNew(was, fds, fd);
      }
    }
  }

  lemma TakenPrefix(was: set<nat>, fds: seq<nat>, i: nat, maxfd: nat)
    requires Taken(was, fds, maxfd) && i < |fds|
    ensures fds[i] in was + Elems(fds[..i + 1]) && fds[i] !in was
    ensures was + Elems(fds[..i + 1]) - {fds[i]} == was + Elems(fds[..i])
  {
    assert fds[..i + 1] == fds[..i] + [fds[i]];
    assert TakenAt(was, fds, i);
    ElemsMore(fds[..i], fds[i]);
  }

  lemma TakenUnused(was: set<nat>, fds: seq<nat>, maxfd: nat)
    requires Taken(was, fds, maxfd)
    ensures Elems(fds) <= Unused(was, maxfd)
  {
    forall fd | fd in fds
      ensures fd in Unused(was, maxfd)
    {
      var j :| 0 <= j < |fds| && fds[j] == fd;
      assert TakenAt(was, fds, j);
    }
  }

  lemma AllTaken(was: set<nat>, fds: seq<nat>, maxfd: nat)
    requires Taken(was, fds, maxfd) && forall k: nat :: k < maxfd ==> k in was + Elems(fds)
    ensures |Unused(was, maxfd)| == |fds|
  {
    hide LeastUnused;
    TakenUnused(was, fds, maxfd);
    forall k | k in Unused(was, maxfd)
      ensures k in Elems(fds)
    {
      assert k in was + Elems(fds);
    }
    assert Unused(was, maxfd) == Elems(fds);
  }

  lemma TakenFit(was: set<nat>, fds: seq<nat>, maxfd: nat)
    requires Taken(was, fds, maxfd)
    ensures |fds| <= |Unused(was, maxfd)|
  {
    hide LeastUnused;
    TakenUnused(was, fds, maxfd);
    SubsetSize(Elems(fds), Unused(was, maxfd));
  }

  lemma {:induction false} SubsetSize(a: set<nat>, b: set<nat>)
    requires a <= b
    ensures |a| <= |b|
  {
    if a != {} {
      var x :| x in a;
      SubsetSize(a - {x}, b - {x});
    }
  }

  /** A set has one least unused and one greatest member. */
  lemma SameCaches(used: set<nat>, free: nat, last: int, free': nat, last': int)
    requires LeastUnused(used, 0, free) && LeastUnused(used, 0, free')
    requires Greatest(used, last) && Greatest(used, last')
    ensures free == free' && last == last'
  {
  }

  lemma FullFrom(words: seq<Word>, low: nat)
    requires NdSlot(low) < |words| && And(From(BitNo(low)), Not(words[NdSlot(low)])) == Zero()
    ensures forall k: nat :: low <= k < (NdSlot(low) + 1) * 64 ==> Bit(words, k)
  {
    forall k: nat | low <= k < (NdSlot(low) + 1) * 64
      ensures Bit(words, k)
    {
      SlotBit(NdSlot(low), k - NdSlot(low) * 64);
      assert !And(From(BitNo(low)), Not(words[NdSlot(low)]))[BitNo(k)];
    }
  }

  lemma NoneBelow(words: seq<Word>, size: nat)
    requires NdSlot(size) < |words| && And(Below(BitNo(size)), words[NdSlot(size)]) == Zero()
    ensures forall k: nat :: NdSlot(size) * 64 <= k < size ==> !Bit(words, k)
  {
    forall k: nat | NdSlot(size) * 64 <= k < size
      ensures !Bit(words, k)
    {
      SlotBit(NdSlot(size), k - NdSlot(size) * 64);
      assert !And(Below(BitNo(size)), words[NdSlot(size)])[BitNo(k)];
    }
  }
}
