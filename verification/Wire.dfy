/** The byte stream of one file transfer: what `send_file` writes and how `receive_file`
    reads it. Numbers are in the (little-endian) byte order of both machines. */
module Wire {
  import opened Options
  import opened Files
  import opened CStrings

  // ------------------------------------------------------------ numbers

  const TWO_64 := 0x1_0000_0000_0000_0000

  function Range(k: nat): int {
    if k == 0 then 1 else 256 * Range(k - 1)
  }

  function Encode(v: nat, k: nat): (bs: Bytes)
    ensures |bs| == k
  {
    if k == 0 then [] else [v % 256] + Encode(v / 256, k - 1)
  }

  function Decode(bs: Bytes): nat {
    if bs == [] then 0 else bs[0] + 256 * Decode(bs[1..])
  }

  lemma {:induction false} DecodeEncode(v: nat, k: nat)
    requires v < Range(k)
    ensures Decode(Encode(v, k)) == v
    decreases k
  {
    if k > 0 {
      DecodeEncode(v / 256, k - 1);
      assert Encode(v, k)[1..] == Encode(v / 256, k - 1);
    }
  }

  lemma {:induction false} RangePositive(k: nat)
    ensures Range(k) > 0
  {
    if k > 0 {
      RangePositive(k - 1);
    }
  }

  // The layout: byte `i` holds the digit of weight 256 to the `i`.
  lemma {:induction false} EncodeLayout(v: nat, k: nat, i: nat)
    requires i < k
    ensures Range(i) > 0 && Encode(v, k)[i] == v / Range(i) % 256
    decreases i
  {
    RangePositive(i);
    if i > 0 {
      RangePositive(i - 1);
      EncodeLayout(v / 256, k - 1, i - 1);
      DivideTwice(v, Range(i - 1));
    } else {
      assert v / 1 == v;
    }
  }

  lemma {:induction false} DivideTwice(v: nat, r: nat)
    requires r > 0
    ensures v / 256 / r == v / (256 * r)
  {
    var q := v / 256 / r;
    assert 256 * (q * r) <= v < 256 * (q * r + r);
    QuotientIs(v, 256 * r, q) by {
      assert q * (256 * r) == 256 * (q * r);
      assert (q + 1) * (256 * r) == 256 * (q * r + r);
    }
  }

  // int64_t and uint64_t views of the same eight bytes.
  function Unsigned64(v: int): int {
    if v < 0 then v + TWO_64 else v
  }

  function Signed64(u: nat): int {
    if u < TWO_64 / 2 then u else u - TWO_64
  }

  // ------------------------------------------------------------ names

  function Ascii(s: string): (bs: Bytes)
    ensures |bs| == |s|
  {
    seq(|s|, i requires 0 <= i < |s| => s[i] as int % 256)
  }

  const SLASH: byte := 47
  const DOT: byte := 46

  // strstr(s, "..") != NULL
  predicate HasDotDot(s: Bytes) {
    exists i :: 0 < i < |s| && s[i - 1] == DOT && s[i] == DOT
  }

  // What follows the last slash.
  function BaseName(name: Bytes): Bytes {
    if name == [] || name[|name| - 1] == SLASH then [] else BaseName(name[..|name| - 1]) + [name[|name| - 1]]
  }

  const CODE := Ascii("code")
  const REDUCER := Ascii("reducer")
  const TRAIN := Ascii("train")

  const ROOT := Ascii("received_files/")
  const PATH_SIZE := 128
  const NAME_SIZE := 256
  const BLOCK_SIZE := 65536

  function OutPath(folder: Bytes, base: Bytes): Bytes {
    ROOT + folder + [SLASH] + base
  }

  // The file is in the folder.
  predicate LiesIn(path: Bytes, folder: Bytes) {
    ROOT + folder + [SLASH] <= path
  }

  // Files in different folders are different: folders differ in their first letter.
  lemma {:induction false} FoldersDiffer()
    ensures CODE != [] && REDUCER != [] && TRAIN != []
    ensures CODE[0] == 99 && REDUCER[0] == 114 && TRAIN[0] == 116
  {
    assert "code"[0] == 'c' && "reducer"[0] == 'r' && "train"[0] == 't';
  }

  lemma PathLiesIn(folder: Bytes, base: Bytes)
    ensures LiesIn(OutPath(folder, base), folder)
  {
  }

  lemma {:induction false} FilesDiffer(path: Bytes, folder: Bytes, path': Bytes, folder': Bytes)
    requires folder != [] && folder' != [] && folder[0] != folder'[0]
    ensures LiesIn(path, folder) && LiesIn(path', folder') ==> path != path'
  {
    if LiesIn(path, folder) && LiesIn(path', folder') {
      assert path[|ROOT|] == (ROOT + folder + [SLASH])[|ROOT|] == folder[0];
      assert path'[|ROOT|] == (ROOT + folder' + [SLASH])[|ROOT|] == folder'[0];
    }
  }

  // ------------------------------------------------------------ the stream

  function Field(text: Bytes): Bytes {
    Encode(|text|, 4) + text
  }

  function Preamble(folder: Bytes, name: Bytes, size: int): Bytes
    requires Unsigned64(size) >= 0
  {
    Field(folder) + Field(name) + Encode(Unsigned64(size), 8)
  }

  // A field read from the front of a stream, and what is left. None: the stream ended,
  // or the announced length is zero or does not fit the buffer.
  function TakeField(stream: Bytes): (r: Option<(Bytes, Bytes)>)
    ensures r.Some? ==> 4 <= |stream| && |r.value.0| < NAME_SIZE && stream == stream[..4] + r.value.0 + r.value.1
  {
    if |stream| < 4 then None
    else
      var len := Decode(stream[..4]);
      if len == 0 || len >= NAME_SIZE || |stream| < 4 + len then None
      else Some((stream[4..4 + len], stream[4 + len..]))
  }

  datatype Header = Header(folder: Bytes, path: Bytes, size: nat)

  datatype Parsed =
    | Malformed                          // a field is missing or has no acceptable length
    | Refused(folder: Bytes, size: nat)  // complete, but the path is not acceptable
    | Accepted(header: Header, rest: Bytes)

  // Otherwise the path is that of a directory and cannot be opened for writing.
  predicate NamesFile(base: Bytes) {
    base != [] && base != [DOT] && base != [DOT, DOT]
  }

  predicate GoodPath(folder: Bytes, base: Bytes) {
    !HasDotDot(folder) && |OutPath(folder, base)| < PATH_SIZE && NamesFile(base)
  }

  function Parse(stream: Bytes): Parsed {
    match TakeField(stream)
    case None => Malformed
    case Some((rawFolder, afterFolder)) =>
      match TakeField(afterFolder)
      case None => Malformed
      case Some((rawName, afterName)) =>
        if |afterName| < 8 then Malformed
        else
          var folder, base := CString(rawFolder, 0), BaseName(CString(rawName, 0));
          var size := Decode(afterName[..8]);
          if GoodPath(folder, base) then
            Accepted(Header(folder, OutPath(folder, base), size), afterName[8..])
          else
            Refused(folder, size)
  }

  // ------------------------------------------------------------ reading undoes writing

  predicate GoodLength(text: Bytes) {
    0 < |text| < NAME_SIZE
  }

  lemma {:induction false} TakeSentField(text: Bytes, more: Bytes)
    requires |text| < Range(4)
    ensures TakeField(Field(text) + more) == if GoodLength(text) then Some((text, more)) else None
  {
    var stream := Field(text) + more;
    DecodeEncode(|text|, 4);
    assert stream[..4] == Encode(|text|, 4);
    assert stream[4..4 + |text|] == text;
    assert stream[4 + |text|..] == more;
  }

  lemma {:induction false} SizeFits(size: int)
    requires -(TWO_64 / 2) <= size < TWO_64 / 2
    ensures 0 <= Unsigned64(size) < Range(8)
    ensures Signed64(Unsigned64(size)) == size
  {
    assert Range(4) == 0x1_0000_0000;
    assert Range(8) == 0x1_0000_0000 * Range(4);
  }

  // For every folder, file name, announced size and following bytes: the receiver
  // reads back the folder, the base name, the size, and leaves exactly the bytes that
  // follow; it turns the transfer down exactly when a name is empty or too long for its
  // buffer, the folder contains "..", the path is too long, or it names a directory.
  lemma {:induction false} RoundTrip(folder: Bytes, name: Bytes, size: int, more: Bytes)
    requires NoNul(folder, 0) && NoNul(name, 0) && |folder| < Range(4) && |name| < Range(4)
    requires -(TWO_64 / 2) <= size < TWO_64 / 2
    ensures Unsigned64(size) >= 0
    ensures Parse(Preamble(folder, name, size) + more) ==
            if !GoodLength(folder) || !GoodLength(name) then Malformed
            else if GoodPath(folder, BaseName(name)) then
              Accepted(Header(folder, OutPath(folder, BaseName(name)), Unsigned64(size)), more)
            else Refused(folder, Unsigned64(size))
  {
    SizeFits(size);
    var u := Unsigned64(size);
    SameBytes(Field(folder), Field(name), Encode(u, 8), more);
    BuffersAreRead(folder, folder, name, name, u, more);
  }

  lemma SameBytes(a: Bytes, b: Bytes, c: Bytes, d: Bytes)
    ensures a + b + c + d == a + (b + (c + d))
  {
  }

  // The same of any bytes sent for the two names: each is read up to its first zero, but it
  // is its whole length that counts.
  lemma {:induction false} BuffersAreRead(
    rawFolder: Bytes, folder: Bytes, rawName: Bytes, name: Bytes, size: nat, more: Bytes)
    requires |rawFolder| < Range(4) && |rawName| < Range(4) && size < Range(8)
    requires NoNul(folder, 0) && folder <= rawFolder && (|folder| < |rawFolder| ==> rawFolder[|folder|] == 0)
    requires NoNul(name, 0) && name <= rawName && (|name| < |rawName| ==> rawName[|name|] == 0)
    ensures Parse(Field(rawFolder) + (Field(rawName) + (Encode(size, 8) + more))) ==
            if !GoodLength(rawFolder) || !GoodLength(rawName) then Malformed
            else if GoodPath(folder, BaseName(name)) then
              Accepted(Header(folder, OutPath(folder, BaseName(name)), size), more)
            else Refused(folder, size)
  {
    hide Field, TakeField, GoodPath, OutPath, BaseName;
    var afterName := Encode(size, 8) + more;
    TakeSentField(rawFolder, Field(rawName) + afterName);
    TakeSentField(rawName, afterName);
    CStringIs(rawFolder, folder, 0);
    CStringIs(rawName, name, 0);
    DecodeEncode(size, 8);
    assert afterName[..8] == Encode(size, 8) && afterName[8..] == more;
  }

  // ------------------------------------------------------------ the bytes themselves

  // Four and eight bytes, the first the least significant.
  lemma {:induction false} DecodeFour(b: Bytes)
    requires |b| == 4
    ensures Decode(b) == b[0] as int + 0x100 * b[1] as int + 0x1_0000 * b[2] as int + 0x100_0000 * b[3] as int
  {
    DecodeTwo(b);
    DecodeTwo(b[2..]);
  }

  lemma {:induction false} DecodeTwo(b: Bytes)
    requires |b| >= 2
    ensures Decode(b) == b[0] as int + 0x100 * b[1] as int + 0x1_0000 * Decode(b[2..])
  {
    assert b[1..][1..] == b[2..];
  }

  lemma {:induction false} DecodeEight(b: Bytes)
    requires |b| == 8
    ensures Decode(b) == b[0] as int + 0x100 * b[1] as int + 0x1_0000 * b[2] as int + 0x100_0000 * b[3] as int
                         + 0x1_0000_0000 * (b[4] as int + 0x100 * b[5] as int
                                            + 0x1_0000 * b[6] as int + 0x100_0000 * b[7] as int)
  {
    hide Decode;
    DecodeTwo(b);
    DecodeTwo(b[2..]);
    assert b[2..][2..] == b[4..];
    DecodeFour(b[4..]);
  }

  // Both lengths are four bytes, the size eight; a negative size is sent as two to the 64th
  // more. The names follow their lengths.
  lemma {:induction false} PreambleLayout(folder: Bytes, name: Bytes, size: int)
    requires |folder| < 0x1_0000_0000 && |name| < 0x1_0000_0000
    requires -0x8000_0000_0000_0000 <= size < 0x8000_0000_0000_0000
    ensures Unsigned64(size) >= 0
    ensures var p, f, e := Preamble(folder, name, size), 4 + |folder|, 8 + |folder| + |name|;
            && |p| == e + 8
            && p[0] as int + 0x100 * p[1] as int + 0x1_0000 * p[2] as int + 0x100_0000 * p[3] as int == |folder|
            && p[4..f] == folder
            && p[f] as int + 0x100 * p[f + 1] as int + 0x1_0000 * p[f + 2] as int + 0x100_0000 * p[f + 3] as int == |name|
            && p[f + 4..e] == name
            && p[e] as int + 0x100 * p[e + 1] as int + 0x1_0000 * p[e + 2] as int + 0x100_0000 * p[e + 3] as int
               + 0x1_0000_0000 * (p[e + 4] as int + 0x100 * p[e + 5] as int
                                  + 0x1_0000 * p[e + 6] as int + 0x100_0000 * p[e + 7] as int)
               == if size >= 0 then size else size + 0x1_0000_0000_0000_0000
  {
    hide Decode, Encode;
    SizeFits(size);
    var u := Unsigned64(size);
    var a, c, d := Encode(|folder|, 4), Encode(|name|, 4), Encode(u, 8);
    var p, f, e := Preamble(folder, name, size), 4 + |folder|, 8 + |folder| + |name|;
    DecodeEncode(|folder|, 4);
    DecodeEncode(|name|, 4);
    DecodeEncode(u, 8);
    DecodeFour(a);
    DecodeFour(c);
    DecodeEight(d);
    assert p == a + folder + c + name + d;
    FiveParts(a, folder, c, name, d);
    assert p[0..4] == a && p[f..f + 4] == c && p[e..e + 8] == d;
  }

  lemma {:induction false} FiveParts(a: Bytes, folder: Bytes, c: Bytes, name: Bytes, d: Bytes)
    requires |a| == 4 && |c| == 4
    ensures var p, f, e := a + folder + c + name + d, 4 + |folder|, 8 + |folder| + |name|;
            && |p| == e + |d| && p[0..4] == a && p[4..f] == folder && p[f..f + 4] == c && p[f + 4..e] == name
            && p[e..] == d
            && (forall k :: 0 <= k < 4 ==> p[k] == a[k] && p[f + k] == c[k])
            && (forall k :: 0 <= k < |d| ==> p[e + k] == d[k])
  {
  }

  // How the receiver reads a length and a name, of any stream.
  lemma {:induction false} FieldIs(s: Bytes)
    ensures |s| < 4 ==> TakeField(s) == None
    ensures |s| >= 4 ==>
              var length := s[0] as int + 0x100 * s[1] as int + 0x1_0000 * s[2] as int + 0x100_0000 * s[3] as int;
              TakeField(s) ==
              if 0 < length < 256 && 4 + length <= |s| then Some((s[4..4 + length], s[4 + length..])) else None
  {
    if |s| >= 4 {
      DecodeFour(s[..4]);
    }
  }

  // What follows the last slash, or all of it.
  lemma {:induction false} BaseNameIs(dir: Bytes, base: Bytes)
    requires forall i :: 0 <= i < |base| ==> base[i] != 47
    ensures BaseName(base) == base
    ensures BaseName(dir + [47] + base) == base
  {
    var name := dir + [47] + base;
    if base != [] {
      var m := |base| - 1;
      BaseNameIs(dir, base[..m]);
      assert name[..|name| - 1] == dir + [47] + base[..m];
      assert base == base[..m] + [base[m]];
    }
  }

  // strstr(folder, "..").
  lemma {:induction false} DotDotIs(s: Bytes)
    ensures HasDotDot(s) <==> exists a: Bytes, b: Bytes :: s == a + [46, 46] + b
  {
    if HasDotDot(s) {
      var i :| 0 < i < |s| && s[i - 1] == DOT && s[i] == DOT;
      assert s == s[..i - 1] + [46, 46] + s[i + 1..];
    }
    forall a: Bytes, b: Bytes | s == a + [46, 46] + b
      ensures HasDotDot(s)
    {
      assert s[|a|] == 46 && s[|a| + 1] == 46;
    }
  }

  // The bytes of the program's texts.
  lemma {:induction false} Texts()
    ensures CODE == [99, 111, 100, 101]
    ensures TRAIN == [116, 114, 97, 105, 110]
    ensures REDUCER == [114, 101, 100, 117, 99, 101, 114]
    ensures ROOT == [114, 101, 99, 101, 105, 118, 101, 100, 95, 102, 105, 108, 101, 115, 47]
  {
  }

  // The transfer to `dir/base`, or to `base`, is accepted for these lengths and names and
  // no others, and its file is `received_files/folder/base`.
  lemma {:induction false} AcceptedExactly(folder: Bytes, name: Bytes, dir: Bytes, base: Bytes, size: int, more: Bytes)
    requires NoNul(folder, 0) && NoNul(name, 0) && |folder| < 0x1_0000_0000 && |name| < 0x1_0000_0000
    requires -0x8000_0000_0000_0000 <= size < 0x8000_0000_0000_0000
    requires name == base || name == dir + [47] + base
    requires forall i :: 0 <= i < |base| ==> base[i] != 47
    ensures Unsigned64(size) >= 0
    ensures var p := Parse(Preamble(folder, name, size) + more);
            && (p.Accepted? <==>
                  && 0 < |folder| < 256 && 0 < |name| < 256
                  && (!exists a: Bytes, b: Bytes :: folder == a + [46, 46] + b)
                  && 16 + |folder| + |base| < 128
                  && base != [] && base != [46] && base != [46, 46])
            && (p.Accepted? ==>
                  && p.header.folder == folder && p.header.path == ROOT + folder + [47] + base && p.rest == more
                  && p.header.size == if size >= 0 then size else size + 0x1_0000_0000_0000_0000)
            && (p.Malformed? <==> !(0 < |folder| < 256 && 0 < |name| < 256))
  {
    hide Parse, Preamble, BaseName, HasDotDot;
    SizeFits(size);
    BaseNameIs(dir, base);
    DotDotIs(folder);
    RoundTrip(folder, name, size, more);
  }

  // ------------------------------------------------------------ acceptable transfers

  // Everything on the connection of an acceptable transfer of these contents.
  function Stream(folder: Bytes, name: Bytes, contents: Bytes): Bytes {
    Preamble(folder, name, |contents|) + contents
  }

  predicate Acceptable(folder: Bytes, name: Bytes, size: nat) {
    && NoNul(folder, 0) && NoNul(name, 0) && GoodLength(folder) && GoodLength(name)
    && GoodPath(folder, BaseName(name)) && size < TWO_64 / 2
  }

  // In numbers and texts: for a name `dir/base` or `base`.
  lemma {:induction false} AcceptableExactly(folder: Bytes, name: Bytes, dir: Bytes, base: Bytes, size: nat)
    requires name == base || name == dir + [47] + base
    requires forall i :: 0 <= i < |base| ==> base[i] != 47
    ensures Acceptable(folder, name, size) <==>
              && 0 < |folder| < 256 && 0 < |name| < 256 && size < 0x8000_0000_0000_0000
              && (forall i :: 0 <= i < |folder| ==> folder[i] != 0)
              && (forall i :: 0 <= i < |name| ==> name[i] != 0)
              && (!exists a: Bytes, b: Bytes :: folder == a + [46, 46] + b)
              && 16 + |folder| + |base| < 128
              && base != [] && base != [46] && base != [46, 46]
  {
    hide BaseName, HasDotDot;
    BaseNameIs(dir, base);
    DotDotIs(folder);
  }

  lemma NameFits()
    ensures NAME_SIZE < Range(4)
  {
    assert Range(4) == 256 * Range(3) && Range(3) == 256 * Range(2);
  }

  lemma {:induction false} StreamIsRead(folder: Bytes, name: Bytes, contents: Bytes, trailing: Bytes)
    requires Acceptable(folder, name, |contents|)
    ensures Parse(Stream(folder, name, contents) + trailing) ==
            Accepted(Header(folder, OutPath(folder, BaseName(name)), |contents|), contents + trailing)
  {
    PreambleIsRead(folder, name, |contents|, contents + trailing);
    ConcatAssoc(Preamble(folder, name, |contents|), contents, trailing);
  }

  lemma {:induction false} PreambleIsRead(folder: Bytes, name: Bytes, size: nat, more: Bytes)
    requires Acceptable(folder, name, size)
    ensures Parse(Preamble(folder, name, size) + more) ==
            Accepted(Header(folder, OutPath(folder, BaseName(name)), size), more)
  {
    NameFits();
    RoundTrip(folder, name, size, more);
  }
}
