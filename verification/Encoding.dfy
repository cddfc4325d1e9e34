/** The two byte strings that stand for a directory before SHA-256 is applied: one with length prefixes, one
    with zero bytes as separators. */
module Encoding {
  import opened Wrappers

  type Byte = b: int | 0 <= b < 256
  type Bytes = seq<Byte>

  /** A file, by its relative path and its content. Directories are listed in a fixed order. */
  datatype File = File(name: Bytes, data: Bytes)

  /** What `digest.update` has been given so far; the hash is a function of it. */
  class Digest {
    var input: Bytes

    constructor ()
      ensures input == []
    {
      input := [];
    }

    method Update(bytes: Bytes)
      modifies this
      ensures input == old(input) + bytes
    {
      input := input + bytes;
    }
  }

  lemma {:induction false} JoinFour(all: Bytes, a: Bytes, b: Bytes, c: Bytes, d: Bytes)
    ensures all + a + b + c + d == all + (a + b + c + d)
  {
  }

  // ----- Fixed-width integers -----

  function Pow256(width: nat): (r: nat)
    ensures r > 0
  {
    if width == 0 then 1 else 256 * Pow256(width - 1)
  }

  /** `n.to_bytes(width, "big")`, which raises for a larger number. */
  function BigEndian(n: nat, width: nat): (r: Bytes)
    requires n < Pow256(width)
    ensures |r| == width
  {
    if width == 0 then [] else BigEndian(n / 256, width - 1) + [n % 256]
  }

  function FromBigEndian(bytes: Bytes): nat {
    if bytes == [] then 0 else 256 * FromBigEndian(bytes[..|bytes| - 1]) + bytes[|bytes| - 1]
  }

  lemma {:induction false} BigEndianRoundTrip(n: nat, width: nat)
    requires n < Pow256(width)
    ensures FromBigEndian(BigEndian(n, width)) == n
    decreases width
  {
    if width > 0 {
      BigEndianRoundTrip(n / 256, width - 1);
      var bytes := BigEndian(n, width);
      assert bytes[..width - 1] == BigEndian(n / 256, width - 1);
    }
  }

  // ----- Length prefixes: `_hash_directory` -----

  const MISSING: Bytes := [77, 73, 83, 83, 73, 78, 71]

  const LENGTH_LIMIT: nat := 0x1_0000_0000_0000_0000

  predicate Fits(file: File) {
    |file.name| < LENGTH_LIMIT && |file.data| < LENGTH_LIMIT
  }

  predicate AllFit(files: seq<File>) {
    forall k :: 0 <= k < |files| ==> Fits(files[k])
  }

  lemma {:induction false} LimitIsEightBytes()
    ensures Pow256(8) == LENGTH_LIMIT
  {
    assert Pow256(2) == 65536;
    assert Pow256(4) == 65536 * Pow256(2);
    assert Pow256(6) == 65536 * Pow256(4);
  }

  function Prefixed(bytes: Bytes): (r: Bytes)
    requires |bytes| < LENGTH_LIMIT
    ensures |r| == 8 + |bytes|
  {
    LimitIsEightBytes();
    BigEndian(|bytes|, 8) + bytes
  }

  function PrefixedFile(file: File): Bytes
    requires Fits(file)
  {
    Prefixed(file.name) + Prefixed(file.data)
  }

  function PrefixedFiles(files: seq<File>): Bytes
    requires AllFit(files)
  {
    if files == [] then [] else PrefixedFile(files[0]) + PrefixedFiles(files[1..])
  }

  /** The hashed bytes for a directory, or for a root that is none. */
  function DirectoryInput(root: Option<seq<File>>): Bytes
    requires root.Some? ==> AllFit(root.value)
  {
    if root.None? then MISSING else PrefixedFiles(root.value)
  }

  /** Reads one length-prefixed string; the value is the string and what follows it. */
  function TakePrefixed(bytes: Bytes): (r: Option<(Bytes, Bytes)>)
    ensures r.Some? ==> |r.value.1| + 8 <= |bytes|
  {
    if |bytes| < 8 then None
    else
      var n := FromBigEndian(bytes[..8]);
      if 8 + n > |bytes| then None else Some((bytes[8..8 + n], bytes[8 + n..]))
  }

  function ReadFiles(bytes: Bytes): Option<seq<File>>
    decreases |bytes|
  {
    if bytes == [] then Some([])
    else
      var name := TakePrefixed(bytes);
      if name.None? then None
      else
        var data := TakePrefixed(name.value.1);
        if data.None? then None
        else
          var rest := ReadFiles(data.value.1);
          if rest.None? then None else Some([File(name.value.0, data.value.0)] + rest.value)
  }

  /** A reader for the hashed bytes, which the program does not have: nothing for bytes no root gives. */
  function ReadDirectory(bytes: Bytes): Option<Option<seq<File>>> {
    if bytes == MISSING then Some(None)
    else
      var files := ReadFiles(bytes);
      if files.None? then None else Some(files)
  }

  lemma {:induction false} TakesPrefixed(bytes: Bytes, rest: Bytes)
    requires |bytes| < LENGTH_LIMIT
    ensures TakePrefixed(Prefixed(bytes) + rest) == Some((bytes, rest))
  {
    LimitIsEightBytes();
    BigEndianRoundTrip(|bytes|, 8);
    var all := Prefixed(bytes) + rest;
    assert all[..8] == BigEndian(|bytes|, 8);
    assert all[8..8 + |bytes|] == bytes && all[8 + |bytes|..] == rest;
  }

  lemma {:induction false} ReadsOneFile(file: File, rest: Bytes)
    requires Fits(file)
    ensures var all := PrefixedFile(file) + rest;
      var files := ReadFiles(rest);
      ReadFiles(all) == if files.None? then None else Some([file] + files.value)
  {
    var name, data := Prefixed(file.name), Prefixed(file.data);
    assert PrefixedFile(file) + rest == name + (data + rest);
    TakesPrefixed(file.name, data + rest);
    TakesPrefixed(file.data, rest);
  }

  lemma {:induction false} ReadsFiles(files: seq<File>)
    requires AllFit(files)
    ensures ReadFiles(PrefixedFiles(files)) == Some(files)
    decreases |files|
  {
    if files != [] {
      var file, rest := files[0], PrefixedFiles(files[1..]);
      ReadsFiles(files[1..]);
      ReadsOneFile(file, rest);
      assert PrefixedFiles(files) == PrefixedFile(file) + rest;
      assert [file] + files[1..] == files;
    }
  }

  lemma {:induction false} FilesAreLong(files: seq<File>)
    requires AllFit(files) && files != []
    ensures |PrefixedFiles(files)| >= 16
  {
    assert |PrefixedFile(files[0])| >= 16;
  }

  /** Every hashed input reads back as the one directory, or missing root, that it was made from. */
  lemma {:induction false} DirectoryInputReadsBack(root: Option<seq<File>>)
    requires root.Some? ==> AllFit(root.value)
    ensures ReadDirectory(DirectoryInput(root)) == Some(root)
  {
    if root.Some? {
      ReadsFiles(root.value);
      if root.value != [] {
        FilesAreLong(root.value);
      }
    }
  }

  /** So two roots are hashed alike exactly if they hold the same files, a missing one like no other. */
  lemma {:induction false} DirectoryInputsDiffer(a: Option<seq<File>>, b: Option<seq<File>>)
    requires (a.Some? ==> AllFit(a.value)) && (b.Some? ==> AllFit(b.value))
    ensures DirectoryInput(a) == DirectoryInput(b) <==> a == b
  {
    DirectoryInputReadsBack(a);
    DirectoryInputReadsBack(b);
  }

  lemma {:induction false} Reassociate(a: Bytes, b: Bytes, c: Bytes)
    ensures a + (b + c) == (a + b) + c
  {
  }

  lemma {:induction false} PrefixedFilesAppend(files: seq<File>, file: File)
    requires AllFit(files) && Fits(file)
    ensures AllFit(files + [file])
    ensures PrefixedFiles(files + [file]) == PrefixedFiles(files) + PrefixedFile(file)
    decreases |files|
  {
    if files == [] {
      assert files + [file] == [file];
      assert PrefixedFiles([file][1..]) == [];
    } else {
      PrefixedFilesAppend(files[1..], file);
      assert (files + [file])[1..] == files[1..] + [file];
      Reassociate(PrefixedFile(files[0]), PrefixedFiles(files[1..]), PrefixedFile(file));
    }
  }

  /** The loop of `_hash_directory`; nothing if a length needs more than eight bytes. */
  method HashDirectory(root: Option<seq<File>>) returns (input: Option<Bytes>)
    ensures input.Some? <==> (root.Some? ==> AllFit(root.value))
    ensures input.Some? ==> input.value == DirectoryInput(root)
  {
    LimitIsEightBytes();
    var digest := new Digest();
    if root.None? {
      digest.Update(MISSING);
      return Some(digest.input);
    }
    var files := root.value;
    for i := 0 to |files|
      invariant AllFit(files[..i]) && digest.input == PrefixedFiles(files[..i])
    {
      var name, data := files[i].name, files[i].data;
      if |name| >= LENGTH_LIMIT || |data| >= LENGTH_LIMIT {
        assert !Fits(files[i]);
        return None;
      }
      ghost var before := digest.input;
      digest.Update(BigEndian(|name|, 8));
      digest.Update(name);
      digest.Update(BigEndian(|data|, 8));
      digest.Update(data);
      JoinFour(before, BigEndian(|name|, 8), name, BigEndian(|data|, 8), data);
      assert PrefixedFile(files[i]) == BigEndian(|name|, 8) + name + BigEndian(|data|, 8) + data;
      assert files[..i + 1] == files[..i] + [files[i]];
      PrefixedFilesAppend(files[..i], files[i]);
    }
    assert files[..|files|] == files;
    input := Some(digest.input);
  }

  // ----- Zero bytes as separators: `source_tree_sha256` -----

  predicate NulFree(bytes: Bytes) {
    0 !in bytes
  }

  /** File names hold no zero byte. */
  predicate Named(files: seq<File>) {
    forall f :: f in files ==> NulFree(f.name)
  }

  /** No file content holds a zero byte either. */
  predicate Clean(files: seq<File>) {
    forall f :: f in files ==> NulFree(f.data)
  }

  function SeparatedFile(file: File): Bytes {
    file.name + [0] + file.data + [0]
  }

  function TreeInput(files: seq<File>): Bytes {
    if files == [] then [] else SeparatedFile(files[0]) + TreeInput(files[1..])
  }

  /** The files that are not generated or runtime state. */
  function Kept(files: seq<File>, ignored: Bytes -> bool): seq<File> {
    if files == [] then []
    else if ignored(files[0].name) then Kept(files[1..], ignored)
    else [files[0]] + Kept(files[1..], ignored)
  }

  lemma {:induction false} TreeInputAppend(files: seq<File>, file: File)
    ensures TreeInput(files + [file]) == TreeInput(files) + SeparatedFile(file)
    decreases |files|
  {
    if files == [] {
      assert files + [file] == [file];
    } else {
      TreeInputAppend(files[1..], file);
      assert (files + [file])[1..] == files[1..] + [file];
    }
  }

  lemma {:induction false} KeptAppend(files: seq<File>, ignored: Bytes -> bool, file: File)
    ensures Kept(files + [file], ignored)
      == if ignored(file.name) then Kept(files, ignored) else Kept(files, ignored) + [file]
    decreases |files|
  {
    if files == [] {
      assert files + [file] == [file];
    } else {
      KeptAppend(files[1..], ignored, file);
      assert (files + [file])[1..] == files[1..] + [file];
    }
  }

  /** The loop of `source_tree_sha256`. */
  method HashSourceTree(files: seq<File>, ignored: Bytes -> bool) returns (input: Bytes)
    ensures input == TreeInput(Kept(files, ignored))
  {
    var digest := new Digest();
    for i := 0 to |files|
      invariant digest.input == TreeInput(Kept(files[..i], ignored))
    {
      KeptAppend(files[..i], ignored, files[i]);
      assert files[..i + 1] == files[..i] + [files[i]];
      if ignored(files[i].name) {
        continue;
      }
      ghost var before := digest.input;
      digest.Update(files[i].name);
      digest.Update([0]);
      digest.Update(files[i].data);
      digest.Update([0]);
      JoinFour(before, files[i].name, [0], files[i].data, [0]);
      TreeInputAppend(Kept(files[..i], ignored), files[i]);
    }
    assert files[..|files|] == files;
    input := digest.input;
  }

  function Nuls(bytes: Bytes): nat {
    if bytes == [] then 0 else (if bytes[0] == 0 then 1 else 0) + Nuls(bytes[1..])
  }

  lemma {:induction false} NulsOfConcat(a: Bytes, b: Bytes)
    ensures Nuls(a + b) == Nuls(a) + Nuls(b)
    decreases |a|
  {
    if a == [] {
      assert a + b == b;
    } else {
      NulsOfConcat(a[1..], b);
      assert (a + b)[1..] == a[1..] + b;
    }
  }

  lemma {:induction false} NoNulsIff(bytes: Bytes)
    ensures Nuls(bytes) == 0 <==> NulFree(bytes)
    decreases |bytes|
  {
    if bytes != [] {
      NoNulsIff(bytes[1..]);
      assert bytes == [bytes[0]] + bytes[1..];
    }
  }

  /** The zero bytes of a tree's input: two a file, and those inside the contents. */
  lemma {:induction false} NulsOfTree(files: seq<File>)
    requires Named(files)
    ensures Nuls(TreeInput(files)) >= 2 * |files|
    ensures Nuls(TreeInput(files)) == 2 * |files| <==> Clean(files)
    decreases |files|
  {
    if files != [] {
      var f := files[0];
      NulsOfTree(files[1..]);
      assert files == [f] + files[1..];
      NoNulsIff(f.name);
      NoNulsIff(f.data);
      assert Nuls([0]) == 1 by {
        assert [0 as Byte][1..] == [];
      }
      NulsOfConcat(f.name, [0]);
      NulsOfConcat(f.name + [0], f.data);
      NulsOfConcat(f.name + [0] + f.data, [0]);
      NulsOfConcat(SeparatedFile(f), TreeInput(files[1..]));
    }
  }

  /** Splitting at the first zero byte is unambiguous. */
  lemma {:induction false} SplitsAtFirstNul(a: Bytes, b: Bytes, restA: Bytes, restB: Bytes)
    requires NulFree(a) && NulFree(b)
    requires a + [0] + restA == b + [0] + restB
    ensures a == b && restA == restB
  {
    var left, right := a + [0] + restA, b + [0] + restB;
    assert left[|a|] == 0 && right[|b|] == 0;
    assert forall k :: 0 <= k < |a| ==> left[k] == a[k];
    assert forall k :: 0 <= k < |b| ==> right[k] == b[k];
    assert |a| == |b|;
    assert a == left[..|a|] && b == right[..|b|];
    assert restA == left[|a| + 1..] && restB == right[|b| + 1..];
  }

  /** If neither of two first files has a zero byte, they are read off alike, and so is the rest. */
  lemma {:induction false} FirstFilesAgree(f: File, g: File, restA: Bytes, restB: Bytes)
    requires NulFree(f.name) && NulFree(f.data) && NulFree(g.name) && NulFree(g.data)
    requires SeparatedFile(f) + restA == SeparatedFile(g) + restB
    ensures f == g && restA == restB
  {
    assert SeparatedFile(f) + restA == f.name + [0] + (f.data + [0] + restA);
    assert SeparatedFile(g) + restB == g.name + [0] + (g.data + [0] + restB);
    SplitsAtFirstNul(f.name, g.name, f.data + [0] + restA, g.data + [0] + restB);
    SplitsAtFirstNul(f.data, g.data, restA, restB);
  }

  /** Trees with no zero byte in any content are told apart. */
  lemma {:induction false} CleanTreesDiffer(a: seq<File>, b: seq<File>)
    requires Named(a) && Named(b) && Clean(a) && Clean(b)
    ensures TreeInput(a) == TreeInput(b) <==> a == b
    decreases |a|
  {
    if a != [] && b != [] && TreeInput(a) == TreeInput(b) {
      FirstFilesAgree(a[0], b[0], TreeInput(a[1..]), TreeInput(b[1..]));
      CleanTreesDiffer(a[1..], b[1..]);
      assert a == [a[0]] + a[1..] && b == [b[0]] + b[1..];
    }
  }

  /** A tree with no zero byte in any content is hashed like another one only if that one has fewer files, so
      the number of files would settle it. */
  lemma {:induction false} CleanTreeIsSettledByCount(a: seq<File>, b: seq<File>)
    requires Named(a) && Named(b) && Clean(a)
    requires TreeInput(a) == TreeInput(b)
    ensures |b| <= |a|
    ensures |b| == |a| <==> a == b
  {
    NulsOfTree(a);
    NulsOfTree(b);
    if |b| == |a| {
      CleanTreesDiffer(a, b);
    }
  }

  /** And the condition cannot be dropped for any tree of two or more files: a single file under the first
      name, with the rest as its content, is hashed the same. */
  lemma {:induction false} SeveralFilesLookLikeOne(files: seq<File>) returns (single: File)
    requires |files| >= 2
    ensures single.name == files[0].name
    ensures TreeInput([single]) == TreeInput(files) && [single] != files && !Clean([single])
  {
    var f, g := files[0], files[1];
    var rest := TreeInput(files[2..]);
    assert TreeInput(files[1..]) == SeparatedFile(g) + rest by {
      assert files[1..][1..] == files[2..];
    }
    var tail := TreeInput(files[1..]);
    EndsWithNul(files[1..]);
    var content := f.data + [0] + tail[..|tail| - 1];
    single := File(f.name, content);
    assert content[|f.data|] == 0;
    assert tail == tail[..|tail| - 1] + [0];
    assert TreeInput([single]) == f.name + [0] + content + [0];
    assert content + [0] == f.data + [0] + tail;
    assert f.name + [0] + content + [0] == f.name + [0] + (content + [0]);
    assert TreeInput(files) == f.name + [0] + (f.data + [0] + tail);
    assert single in [single] && !NulFree(single.data);
  }

  lemma {:induction false} EndsWithNul(files: seq<File>)
    requires files != []
    ensures TreeInput(files) != [] && TreeInput(files)[|TreeInput(files)| - 1] == 0
    decreases |files|
  {
    if |files| > 1 {
      EndsWithNul(files[1..]);
    }
  }

  // ----- Which trees are told apart from all others -----

  /** Which names a listing can hold, and which can follow which in it. A name is a relative path that is not empty, not
      ignored and without zero bytes; it comes after the names that sort before it and lead to no directory of its
      path. */
  datatype Names = Names(valid: Bytes -> bool, precedes: (Bytes, Bytes) -> bool)

  /** What a directory listing can be. */
  predicate Listing(n: Names, files: seq<File>) {
    && (forall k :: 0 <= k < |files| ==> NulFree(files[k].name) && n.valid(files[k].name))
    && (forall j, k :: 0 <= j < k < |files| ==> n.precedes(files[j].name, files[k].name))
  }

  /** No other listing is hashed alike. */
  ghost predicate ToldApart(n: Names, files: seq<File>) {
    forall other :: Listing(n, other) && TreeInput(other) == TreeInput(files) ==> other == files
  }

  /** Two zero bytes of the content, and between them a name of which the file's own can come first. */
  predicate HidesName(n: Names, f: File, p: nat, q: nat) {
    && p < q < |f.data| && f.data[p] == 0 && f.data[q] == 0
    && NulFree(f.data[p + 1..q]) && n.valid(f.data[p + 1..q]) && n.precedes(f.name, f.data[p + 1..q])
  }

  /** A content split at two of its zero bytes reads as the content of one file and another file. */
  lemma {:induction false} SplitContent(f: File, x: Bytes, y: Bytes, z: Bytes)
    requires f.data == x + [0] + y + [0] + z
    ensures TreeInput([File(f.name, x), File(y, z)]) == TreeInput([f])
  {
    var two := [File(f.name, x), File(y, z)];
    assert two[1..] == [File(y, z)] && [File(y, z)][1..] == [] && [f][1..] == [];
    assert TreeInput([File(y, z)]) == y + [0] + z + [0];
    assert TreeInput(two) == (f.name + [0] + x + [0]) + (y + [0] + z + [0]);
    assert TreeInput([f]) == f.name + [0] + (x + [0] + y + [0] + z) + [0];
  }

  lemma {:induction false} SplitAt(bytes: Bytes, i: nat, j: nat)
    requires i < j < |bytes| && bytes[i] == 0 && bytes[j] == 0
    ensures bytes == bytes[..i] + [0] + bytes[i + 1..j] + [0] + bytes[j + 1..]
  {
  }

  /** A file that is alone is read back if no other tree has two files at the same bytes. */
  lemma {:induction false} SingleFilesAgree(f: File, g: File)
    requires NulFree(f.name) && NulFree(g.name) && TreeInput([f]) == TreeInput([g])
    ensures f == g
  {
    assert [f][1..] == [] && [g][1..] == [];
    assert TreeInput([f]) == f.name + [0] + (f.data + [0]) && TreeInput([g]) == g.name + [0] + (g.data + [0]);
    SplitsAtFirstNul(f.name, g.name, f.data + [0], g.data + [0]);
    assert f.data == (f.data + [0])[..|f.data|] && g.data == (g.data + [0])[..|g.data|];
  }

  lemma {:induction false} OnlyEmptyIsEmpty(files: seq<File>)
    ensures TreeInput(files) == [] <==> files == []
  {
    if files != [] {
      EndsWithNul(files);
    }
  }

  /** The file split at two of its zero bytes. */
  function Halves(f: File, p: nat, q: nat): seq<File>
    requires p < q < |f.data|
  {
    [File(f.name, f.data[..p]), File(f.data[p + 1..q], f.data[q + 1..])]
  }

  lemma {:induction false} HalvesLookAlike(f: File, p: nat, q: nat)
    requires p < q < |f.data| && f.data[p] == 0 && f.data[q] == 0
    ensures TreeInput(Halves(f, p, q)) == TreeInput([f])
  {
    SplitAt(f.data, p, q);
    SplitContent(f, f.data[..p], f.data[p + 1..q], f.data[q + 1..]);
  }

  /** A hidden name splits the content into two files of a listing. */
  lemma {:induction false} HiddenNameSplits(n: Names, f: File, p: nat, q: nat)
    requires Listing(n, [f]) && HidesName(n, f, p, q)
    ensures Listing(n, Halves(f, p, q)) && TreeInput(Halves(f, p, q)) == TreeInput([f]) && Halves(f, p, q) != [f]
  {
    assert [f][0] == f;
    HalvesLookAlike(f, p, q);
  }

  /** The second file of a listing that is hashed like one file puts its name between two zero bytes of that file's
      content. */
  lemma {:induction false} SecondNameIsHidden(n: Names, f: File, other: seq<File>) returns (p: nat, q: nat)
    requires NulFree(f.name) && Listing(n, other) && |other| >= 2 && TreeInput(other) == TreeInput([f])
    ensures HidesName(n, f, p, q)
  {
    var g, h := other[0], other[1];
    var tail := TreeInput(other[2..]);
    assert other[1..][0] == h && other[1..][1..] == other[2..] && [f][1..] == [];
    assert TreeInput(other) == g.name + [0] + (g.data + [0] + (h.name + [0] + h.data + [0] + tail));
    assert TreeInput([f]) == f.name + [0] + (f.data + [0]);
    SplitsAtFirstNul(g.name, f.name, g.data + [0] + (h.name + [0] + h.data + [0] + tail), f.data + [0]);
    p := |g.data|;
    q := p + 1 + |h.name|;
    StretchIs(f.data, g.data, h.name, h.data + [0] + tail);
  }

  lemma {:induction false} StretchIs(data: Bytes, x: Bytes, name: Bytes, rest: Bytes)
    requires data + [0] == x + [0] + (name + [0] + rest) && rest != []
    ensures var p, q := |x|, |x| + 1 + |name|;
      q < |data| && data[p] == 0 && data[q] == 0 && data[p + 1..q] == name
  {
    var p, q := |x|, |x| + 1 + |name|;
    var whole := x + [0] + (name + [0] + rest);
    assert whole[p] == 0 && whole[q] == 0 && whole[p + 1..q] == name;
    assert data == whole[..|data|];
  }

  /** A listing is told apart from all others exactly if it is empty, or a single file in whose content no name that
      could follow its own stands between two zero bytes. */
  lemma {:induction false} ToldApartIff(n: Names, files: seq<File>)
    requires Listing(n, files)
    ensures ToldApart(n, files) <==>
      files == [] || (|files| == 1 && forall p, q :: !HidesName(n, files[0], p, q))
  {
    OnlyEmptyIsEmpty(files);
    if |files| >= 2 {
      var single := SeveralFilesLookLikeOne(files);
      assert Listing(n, [single]);
    } else if |files| == 1 {
      assert files == [files[0]];
      SingleToldApartIff(n, files[0]);
    } else {
      forall other | Listing(n, other) && TreeInput(other) == TreeInput(files)
        ensures other == files
      {
        OnlyEmptyIsEmpty(other);
      }
    }
  }

  lemma {:induction false} SingleToldApartIff(n: Names, f: File)
    requires Listing(n, [f])
    ensures ToldApart(n, [f]) <==> forall p, q :: !HidesName(n, f, p, q)
  {
    assert [f][0] == f;
    if p, q :| HidesName(n, f, p, q) {
      HiddenNameSplits(n, f, p, q);
    } else {
      forall other | Listing(n, other) && TreeInput(other) == TreeInput([f])
        ensures other == [f]
      {
        OnlyEmptyIsEmpty(other);
        OnlyEmptyIsEmpty([f]);
        if |other| >= 2 {
          var p, q := SecondNameIsHidden(n, f, other);
        } else {
          assert other == [other[0]];
          SingleFilesAgree(other[0], f);
        }
      }
    }
  }
}
