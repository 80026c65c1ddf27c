/**
 The boot floppy behind its caches: boot sector, table and root directory are
 kept in memory, read from there and written through.
 */
module FloppyCache {
  import opened Bytes
  import opened Fat12Layout
  import opened Fat12Device

  /** Copy one sector between memory regions. */
  method CopySector(dst: array<byte>, to: nat, src: array<byte>, from: nat)
    requires to + SECTOR <= dst.Length && from + SECTOR <= src.Length && dst != src
    modifies dst
    ensures dst[to..to + SECTOR] == src[from..from + SECTOR]
    ensures forall k :: 0 <= k < dst.Length && !(to <= k < to + SECTOR) ==> dst[k] == old(dst[k])
  {
    var i := 0;
    while i < SECTOR
      invariant 0 <= i <= SECTOR
      invariant forall k :: 0 <= k < dst.Length ==>
                  dst[k] == if to <= k < to + i then src[from + k - to] else old(dst[k])
    {
      dst[to + i] := src[from + i];
      i := i + 1;
    }
  }

  class CachedFloppy {
    var disk: seq<sector>
    const boot: array<byte>
    const fat: array<byte>
    const root: array<byte>
    const fatLba: nat
    const fatSectors: nat
    const rootLba: nat
    const rootSectors: nat

    /** The boot loader leaves copies of the cached sectors in memory. */
    constructor (disk: seq<sector>, boot: array<byte>, fat: array<byte>, root: array<byte>, fatLba: nat,
                 fatSectors: nat, rootLba: nat, rootSectors: nat)
      requires boot.Length == SECTOR && fat.Length == fatSectors * SECTOR && root.Length == rootSectors * SECTOR
      requires boot != fat && boot != root && fat != root
      requires 0 < |disk| && fatLba + fatSectors <= |disk| && rootLba + rootSectors <= |disk| && boot[..] == disk[0]
      requires forall l :: fatLba <= l < fatLba + fatSectors ==>
                 fat[(l - fatLba) * SECTOR..(l - fatLba) * SECTOR + SECTOR] == disk[l]
      requires forall l :: rootLba <= l < rootLba + rootSectors ==>
                 root[(l - rootLba) * SECTOR..(l - rootLba) * SECTOR + SECTOR] == disk[l]
      ensures Valid() && this.disk == disk
    {
      this.disk, this.boot, this.fat, this.root := disk, boot, fat, root;
      this.fatLba, this.fatSectors, this.rootLba, this.rootSectors := fatLba, fatSectors, rootLba, rootSectors;
    }

    predicate InFat(lba: nat) {
      fatLba <= lba < fatLba + fatSectors
    }

    predicate InRoot(lba: nat) {
      rootLba <= lba < rootLba + rootSectors
    }

    ghost predicate Sized() {
      && boot.Length == SECTOR && fat.Length == fatSectors * SECTOR && root.Length == rootSectors * SECTOR
      && boot != fat && boot != root && fat != root
    }

    ghost predicate Shaped()
      reads this
    {
      && Sized()
      && 0 < |disk| && fatLba + fatSectors <= |disk| && rootLba + rootSectors <= |disk|
    }

    /** What a read of the sector takes from a cache, if it does. */
    ghost function Cached(lba: nat): Option<seq<byte>>
      requires Sized()
      reads boot, fat, root
    {
      if lba == 0 then Some(boot[..])
      else if InFat(lba) then Some(fat[(lba - fatLba) * SECTOR..(lba - fatLba) * SECTOR + SECTOR])
      else if InRoot(lba) then Some(root[(lba - rootLba) * SECTOR..(lba - rootLba) * SECTOR + SECTOR])
      else None
    }

    ghost predicate Fresh(lba: nat)
      requires Shaped() && lba < |disk|
      reads this, boot, fat, root
    {
      Cached(lba).Some? ==> Cached(lba).value == disk[lba]
    }

    /** Every cache agrees with the disk. */
    ghost predicate Valid()
      reads this, boot, fat, root
    {
      Shaped() && forall lba :: 0 <= lba < |disk| ==> Fresh(lba)
    }

    /** Read one sector, from a cache if it is kept there. */
    method ReadSector(lba: nat, out: array<byte>, at: nat) returns (ok: bool)
      requires Valid() && at + SECTOR <= out.Length && out != boot && out != fat && out != root
      modifies out
      ensures ok == (lba < |disk|)
      ensures ok ==> out[at..at + SECTOR] == disk[lba]
      ensures forall k :: 0 <= k < out.Length && !(ok && at <= k < at + SECTOR) ==> out[k] == old(out[k])
    {
      assert lba < |disk| ==> Fresh(lba);
      if lba == 0 {
        CopySector(out, at, boot, 0);
        assert boot[0..SECTOR] == boot[..];
        return true;
      }
      if InFat(lba) {
        CopySector(out, at, fat, (lba - fatLba) * SECTOR);
        return true;
      }
      if InRoot(lba) {
        CopySector(out, at, root, (lba - rootLba) * SECTOR);
        return true;
      }
      if lba >= |disk| {
        return false;
      }
      var i := 0;
      while i < SECTOR
        invariant 0 <= i <= SECTOR
        invariant forall k :: 0 <= k < out.Length ==>
                    out[k] == if at <= k < at + i then disk[lba][k - at] else old(out[k])
      {
        out[at + i] := disk[lba][i];
        i := i + 1;
      }
      ok := true;
    }

    /** Store one sector in the cache that keeps it. */
    method CacheSector(lba: nat, src: array<byte>, from: nat)
      requires Shaped() && from + SECTOR <= src.Length && src != boot && src != fat && src != root
      modifies boot, fat, root
      ensures Cached(lba).Some? ==> lba < |disk| && Cached(lba).value == src[from..from + SECTOR]
      ensures forall l: nat :: l != lba ==> Cached(l) == old(Cached(l))
    {
      if lba == 0 {
        CopySector(boot, 0, src, from);
        assert boot[0..SECTOR] == boot[..];
      } else if InFat(lba) {
        CopySector(fat, (lba - fatLba) * SECTOR, src, from);
        assert forall l: nat :: l != lba && InFat(l) ==>
                                  fat[(l - fatLba) * SECTOR..(l - fatLba) * SECTOR + SECTOR] ==
                                    old(fat[(l - fatLba) * SECTOR..(l - fatLba) * SECTOR + SECTOR]);
      } else if InRoot(lba) {
        CopySector(root, (lba - rootLba) * SECTOR, src, from);
        assert forall l: nat :: l != lba && InRoot(l) ==>
                                  root[(l - rootLba) * SECTOR..(l - rootLba) * SECTOR + SECTOR] ==
                                    old(root[(l - rootLba) * SECTOR..(l - rootLba) * SECTOR + SECTOR]);
      }
    }

    /** Write one sector, to a cache if it is kept there, and always to the disk. */
    method WriteSector(lba: nat, src: array<byte>, from: nat) returns (ok: bool)
      requires Valid() && from + SECTOR <= src.Length && src != boot && src != fat && src != root
      modifies this`disk, boot, fat, root
      ensures Valid() && ok == (lba < |old(disk)|)
      ensures disk == if ok then old(disk)[lba := src[from..from + SECTOR]] else old(disk)
    {
      hide Cached;
      CacheSector(lba, src, from);
      if lba >= |disk| {
        forall l | 0 <= l < |disk|
          ensures Fresh(l)
        {
          assert old(Fresh(l)) && Cached(l) == old(Cached(l));
        }
        return false;
      }
      label cached:
      disk := disk[lba := src[from..from + SECTOR]];
      forall l | 0 <= l < |disk|
        ensures Fresh(l)
      {
        assert old(Fresh(l)) && Cached(l) == old@cached(Cached(l));
      }
      ok := true;
    }

    /** Read sectors: the disk's contents, whatever is cached; a read past the end fails there. */
    method Read(lba: nat, count: nat, out: array<byte>) returns (ok: bool)
      requires Valid() && count * SECTOR <= out.Length && out != boot && out != fat && out != root
      modifies out
      ensures ok == (count == 0 || lba + count <= |disk|)
      ensures forall i :: 0 <= i < count && lba + i < |disk| ==> out[i * SECTOR..i * SECTOR + SECTOR] == disk[lba + i]
    {
      hide Valid, Shaped, Fresh;
      var i := 0;
      while i < count
        invariant 0 <= i <= count && (i > 0 ==> lba + i <= |disk|)
        invariant forall j :: 0 <= j < i ==> out[j * SECTOR..j * SECTOR + SECTOR] == disk[lba + j]
      {
        ghost var was := out[..];
        var read := ReadSector(lba + i, out, i * SECTOR);
        if !read {
          return false;
        }
        forall j | 0 <= j < i
          ensures out[j * SECTOR..j * SECTOR + SECTOR] == disk[lba + j]
        {
          assert out[j * SECTOR..j * SECTOR + SECTOR] == was[j * SECTOR..j * SECTOR + SECTOR];
        }
        i := i + 1;
      }
      ok := true;
    }

    /** Write sectors: the disk changes there and nowhere else, and the caches follow. */
    method Write(lba: nat, count: nat, src: array<byte>) returns (ok: bool)
      requires Valid() && count * SECTOR <= src.Length && src != boot && src != fat && src != root
      modifies this`disk, boot, fat, root
      ensures Valid() && |disk| == |old(disk)| && ok == (count == 0 || lba + count <= |disk|)
      ensures forall l :: 0 <= l < |disk| ==>
                            disk[l] == if lba <= l < lba + count
                              then src[(l - lba) * SECTOR..(l - lba) * SECTOR + SECTOR] else old(disk)[l]
    {
      hide Shaped, Fresh;
      var i := 0;
      while i < count
        invariant 0 <= i <= count && Valid() && |disk| == |old(disk)| && (i > 0 ==> lba + i <= |disk|)
        invariant forall l :: 0 <= l < |disk| ==>
                                disk[l] == if lba <= l < lba + i
                                  then src[(l - lba) * SECTOR..(l - lba) * SECTOR + SECTOR] else old(disk)[l]
      {
        var written := WriteSector(lba + i, src, i * SECTOR);
        if !written {
          return false;
        }
        i := i + 1;
      }
      ok := true;
    }
  }
}
