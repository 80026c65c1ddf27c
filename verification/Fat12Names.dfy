/** The loops that turn path text into 8.3 names and split a path for creation. */
module Fat12Names {
  import opened Bytes
  import opened Paths
  import opened Fat12Dir
  import opened Fat12Ops

  /** Copy a directory name into an 11-byte field, refusing dots, slashes and more than 8 bytes. */
  method MakeDirName(name: seq<byte>) returns (r: Option<name83>)
    ensures r == DirName(name)
  {
    if name == [] {
      return None;
    }
    var out: seq<byte> := seq(11, _ => SPACE);
    var len := 0;
    while len < |name|
      invariant len <= |name| && len <= 8
      invariant out == Padded(UpperAll(name[..len]), 11)
      invariant forall i :: 0 <= i < len ==> name[i] != DOT && name[i] != SLASH
    {
      var c := name[len];
      if c == SLASH || c == DOT || len >= 8 {
        assert name[len] in name;
        return None;
      }
      out := out[len := Upper(c)];
      len := len + 1;
    }
    assert name[..len] == name;
    r := Some(out);
  }

  /** How far the copying of a file name has come. */
  ghost predicate Copied(name: seq<byte>, pos: nat, out: seq<byte>, base: nat, ext: nat, inExt: bool) {
    && pos <= |name| && base <= 8 && ext <= 3 && |out| == 11
    && (inExt ==> 0 < base && pos == base + 1 + ext && name[base] == DOT)
    && (!inExt ==> pos == base && ext == 0)
    && (forall i :: 0 <= i < base ==> name[i] != DOT && name[i] != SLASH)
    && (inExt ==> forall i :: base < i < pos ==> name[i] != DOT && name[i] != SLASH)
    && (forall i :: 0 <= i < 8 ==> out[i] == if i < base then Upper(name[i]) else SPACE)
    && (forall i :: 8 <= i < 11 ==> out[i] == if i - 8 < ext then Upper(name[base + 1 + (i - 8)]) else SPACE)
  }

  lemma BaseIs(name: seq<byte>, n: nat)
    requires n <= |name| && (n < |name| ==> name[n] == DOT) && forall i :: 0 <= i < n ==> name[i] != DOT
    ensures BaseOf(name) == name[..n]
  {
    var b := BaseOf(name);
    assert |b| < |name| ==> name[|b|] == DOT;
    assert forall i :: 0 <= i < |b| ==> b[i] in b && b[i] == name[i];
  }

  lemma CopyDone(name: seq<byte>, out: seq<byte>, base: nat, ext: nat, inExt: bool)
    requires Copied(name, |name|, out, base, ext, inExt) && 0 < base && (inExt ==> 0 < ext)
    ensures FileName(name) == Some(out)
  {
    BaseIs(name, base);
    var b, e := BaseOf(name), ExtOf(name);
    assert |e| == ext && forall i :: 0 <= i < ext ==> e[i] == name[base + 1 + i];
    assert out[..8] == Padded(UpperAll(b), 8);
    assert out[8..] == Padded(UpperAll(e), 3);
    assert out == out[..8] + out[8..];
  }

  /** What stops the copying also makes the name unacceptable. */
  lemma CopyStops(name: seq<byte>, pos: nat, out: seq<byte>, base: nat, ext: nat, inExt: bool)
    requires Copied(name, pos, out, base, ext, inExt) && pos < |name|
    requires var c := name[pos];
             || c == SLASH
             || (c == DOT && (inExt || base == 0 || pos + 1 == |name|))
             || (c != DOT && (if inExt then ext >= 3 else base >= 8))
    ensures FileName(name).None?
  {
    var c := name[pos];
    assert c in name;
    if c != SLASH {
      if inExt {
        BaseIs(name, base);
        assert ExtOf(name)[ext] == c;
      } else if c == DOT {
        BaseIs(name, base);
      } else {
        var b := BaseOf(name);
        assert |b| < |name| ==> name[|b|] == DOT;
      }
    }
  }

  /** Copy a file name into base and extension fields. */
  method MakeFileName(name: seq<byte>) returns (r: Option<name83>)
    ensures r == FileName(name)
  {
    if name == [] || name[0] == DOT {
      return None;
    }
    var out: seq<byte> := seq(11, _ => SPACE);
    var pos, base, ext, inExt := 0, 0, 0, false;
    while pos < |name|
      invariant Copied(name, pos, out, base, ext, inExt)
      invariant pos > 0 ==> base > 0
      invariant inExt ==> ext > 0 || pos < |name|
      decreases |name| - pos
    {
      var c := name[pos];
      if c == SLASH {
        CopyStops(name, pos, out, base, ext, inExt);
        return None;
      }
      if c == DOT {
        if inExt || base == 0 || pos + 1 == |name| {
          CopyStops(name, pos, out, base, ext, inExt);
          return None;
        }
        inExt := true;
        pos := pos + 1;
        continue;
      }
      if !inExt {
        if base >= 8 {
          CopyStops(name, pos, out, base, ext, inExt);
          return None;
        }
        out := out[base := Upper(c)];
        base := base + 1;
      } else {
        if ext >= 3 {
          CopyStops(name, pos, out, base, ext, inExt);
          return None;
        }
        out := out[8 + ext := Upper(c)];
        ext := ext + 1;
      }
      pos := pos + 1;
    }
    CopyDone(name, out, base, ext, inExt);
    r := Some(out);
  }

  lemma LastSlashIs(p: seq<byte>, n: nat)
    requires (n == 0 || (n < |p| && p[n] == SLASH)) && forall i :: n < i < |p| ==> p[i] != SLASH
    ensures LastSlash(p) == n
  {}

  /** Find the last slash, then copy what lies before and behind it. */
  method SplitCreatePath(path: cstring) returns (r: Split)
    ensures r == SplitPath(path)
  {
    if path == [] || path[0] != SLASH {
      return NoSplit;
    }
    var len, slash := 0, 0;
    while len < |path|
      invariant len <= |path| && len < PATH_CAP
      invariant slash == 0 || (slash < len && path[slash] == SLASH)
      invariant forall i :: slash < i < len ==> path[i] != SLASH
    {
      if len + 1 >= PATH_CAP {
        return NoSplit;
      }
      if path[len] == SLASH {
        slash := len;
      }
      len := len + 1;
    }
    LastSlashIs(path, slash);
    if len <= 1 || slash == len - 1 {
      return NoSplit;
    }
    var parent: seq<byte> := if slash == 0 then [SLASH] else path[..slash];
    var leaf := CopyLeaf(path, slash + 1);
    if leaf.None? {
      return NoSplit;
    }
    r := Split(parent, leaf.value);
  }

  /** Copy the last component, unless it is too long for the name buffer. */
  method CopyLeaf(path: cstring, from: nat) returns (r: Option<cstring>)
    requires from <= |path|
    ensures r == if NAME_CAP <= |path| - from then None else Some(path[from..])
  {
    var leaf: cstring, i := [], from;
    while i < |path|
      invariant from <= i <= |path| && leaf == path[from..i] && |leaf| < NAME_CAP
    {
      if |leaf| + 1 >= NAME_CAP {
        return None;
      }
      leaf := leaf + [path[i]];
      i := i + 1;
    }
    assert path[from..i] == path[from..];
    r := Some(leaf);
  }
}
