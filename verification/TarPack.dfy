/** The other direction of `untar`: packing files in the ustar Interchange Format (pax utility, IEEE Std 1003.1), so
    that what goes in comes out, and when all of it does. */
module TarPack {
  import opened Const
  import opened BlockDevice
  import opened Words
  import opened Directory
  import opened Untar

  /** The last `k` octal digits of `n`. */
  function Digits(n: nat, k: nat): (d: seq<byte>)
    ensures |d| == k
  {
    if k == 0 then [] else Digits(n / 8, k - 1) + [ValByte(0x30 + n % 8)]
  }

  function Pow8(k: nat): nat { if k == 0 then 1 else 8 * Pow8(k - 1) }

  /** Digits that are enough for a number have its value. */
  lemma {:induction false} DigitsValue(n: nat, k: nat)
    requires n < Pow8(k)
    ensures Octal(Digits(n, k)) && OctalValue(Digits(n, k)) == n && 0 !in Digits(n, k)
  {
    hide ByteVal, ValByte;
    if k > 0 {
      DigitsValue(n / 8, k - 1);
      ByteRound(0x30 + n % 8);
      assert Digits(n, k)[..k - 1] == Digits(n / 8, k - 1);
      ZeroIsZero();
    }
  }

  lemma ZeroIsZero()
    ensures ByteVal(0) == 0
  {
  }

  /** A name and a size that fit into their fields. */
  predicate Packable(f: File) { 0 < |f.name| < 100 && 0 !in f.name && |f.content| < 0x2_0000_0000 }

  /** The header: the name, and from offset 124 on eleven digits; everything else is zero. */
  function Head(f: File): (h: seq<byte>)
    requires Packable(f)
    ensures |h| == SECTOR_SIZE
  {
    f.name + Zeros(124 - |f.name|) + Digits(|f.content|, 11) + Zeros(377)
  }

  function Body(f: File): (b: seq<byte>)
    ensures |b| == Round(|f.content|)
  {
    f.content + Zeros(Round(|f.content|) - |f.content|)
  }

  function Packed(files: seq<File>): seq<byte>
    requires forall f :: f in files ==> Packable(f)
  {
    if files == [] then Zeros(SECTOR_SIZE) else Head(files[0]) + Body(files[0]) + Packed(files[1..])
  }

  lemma HeadIs(pre: seq<byte>, f: File, rest: seq<byte>)
    requires Packable(f)
    ensures Header(pre + (Head(f) + rest), |pre|, f, Digits(|f.content|, 11))
  {
    hide OctalValue, Digits, Octal;
    var n, d := |f.content|, Digits(|f.content|, 11);
    assert Pow8(11) == 0x2_0000_0000;
    DigitsValue(n, 11);
    var a, p := pre + (Head(f) + rest), |pre|;
    assert a[p..p + 512] == Head(f);
    assert forall k :: 0 <= k < 512 ==> a[p + k] == Head(f)[k];
    assert a[p..p + |f.name|] == f.name;
    assert a[p + 124..p + 135] == d;
  }

  lemma FirstFile(a: seq<byte>, p: nat, files: seq<File>, digits: seq<byte>)
    requires files != [] && Header(a, p, files[0], digits)
    requires var q, n := p + SECTOR_SIZE, |files[0].content|;
      q + Round(n) <= |a| && a[q..q + n] == files[0].content && Archive(a, q + Round(n), files[1..])
    ensures Archive(a, p, files)
  {
  }

  lemma BodyIs(pre: seq<byte>, f: File, rest: seq<byte>)
    ensures var a, p, n := pre + (Body(f) + rest), |pre|, |f.content|;
      p + Round(n) <= |a| && a[p..p + n] == f.content
  {
    hide Round;
    var a, p := pre + (Body(f) + rest), |pre|;
    assert a[p..p + |Body(f)|] == Body(f);
    assert a[p..p + |f.content|] == Body(f)[..|f.content|];
  }

  lemma Regroup(pre: seq<byte>, h: seq<byte>, b: seq<byte>, tail: seq<byte>)
    ensures pre + (h + b + tail) == pre + (h + (b + tail)) == (pre + h) + (b + tail) == (pre + h + b) + tail
  {
  }

  lemma Nothing(pre: seq<byte>)
    ensures Archive(pre + Zeros(SECTOR_SIZE), |pre|, [])
  {
    assert (pre + Zeros(SECTOR_SIZE))[|pre|] == 0;
  }

  /** What has been packed is an archive of the files, wherever it stands. */
  lemma {:induction false} PackedIsArchive(pre: seq<byte>, files: seq<File>)
    requires forall f :: f in files ==> Packable(f)
    ensures Archive(pre + Packed(files), |pre|, files)
    decreases |files|
  {
    hide Header, Head, Body, Digits, Round, Packable, Archive, Zeros;
    if files == [] {
      Nothing(pre);
    } else {
      var f, tail := files[0], Packed(files[1..]);
      var h, b := Head(f), Body(f);
      Regroup(pre, h, b, tail);
      HeadIs(pre, f, b + tail);
      BodyIs(pre + h, f, tail);
      PackedIsArchive(pre + h + b, files[1..]);
      FirstFile(pre + Packed(files), |pre|, files, Digits(|f.content|, 11));
    }
  }

  // ---------------------------------------------------------------- what comes out

  /** The name that the file system keeps. */
  function Key(f: File): seq<byte>
    requires Stripped(f.name).Some?
  {
    Pad(Stripped(f.name).value)
  }

  predicate Fresh(taken: set<seq<byte>>, files: seq<File>) { forall f :: f in files ==> Creatable(taken, f.name) }

  predicate Apart(taken: set<seq<byte>>, files: seq<File>)
    requires Fresh(taken, files)
  {
    forall i, j :: 0 <= i < j < |files| ==> Key(files[i]) != Key(files[j])
  }

  lemma Earlier(taken: set<seq<byte>>, files: seq<File>)
    requires files != [] && Creatable(taken, files[0].name)
    requires Fresh(taken + {Key(files[0])}, files[1..]) && Apart(taken + {Key(files[0])}, files[1..])
    ensures Fresh(taken, files) && Apart(taken, files)
  {
    hide Pad, Stripped;
    var rest := files[1..];
    forall f | f in files ensures Creatable(taken, f.name) {
      if f in rest { assert Creatable(taken + {Key(files[0])}, f.name); }
    }
    forall i, j | 0 <= i < j < |files| ensures Key(files[i]) != Key(files[j]) {
      assert files[j] == rest[j - 1] && rest[j - 1] in rest;
      assert Creatable(taken + {Key(files[0])}, files[j].name);
      if i > 0 { assert files[i] == rest[i - 1]; }
    }
  }

  lemma Later(taken: set<seq<byte>>, files: seq<File>)
    requires files != [] && Fresh(taken, files) && Apart(taken, files)
    ensures files[0] in files && Creatable(taken, files[0].name)
    ensures Fresh(taken + {Key(files[0])}, files[1..]) && Apart(taken + {Key(files[0])}, files[1..])
  {
    hide Pad, Stripped;
    assert files[0] in files;
    var rest := files[1..];
    forall f | f in rest ensures Creatable(taken + {Key(files[0])}, f.name) {
      var j :| 0 <= j < |rest| && rest[j] == f;
      assert f == files[j + 1] && f in files;
      assert Creatable(taken, f.name);
    }
    forall i, j | 0 <= i < j < |rest| ensures Key(rest[i]) != Key(rest[j]) {
      assert rest[i] == files[i + 1] && rest[j] == files[j + 1];
    }
  }

  /** Everything comes out if and only if every name can be created on its own, and no two are the same to the file
      system. */
  lemma {:induction false} AllGoodIff(taken: set<seq<byte>>, files: seq<File>)
    ensures Good(taken, files) == |files| <==> Fresh(taken, files) && Apart(taken, files)
    decreases |files|
  {
    hide Pad, Stripped, Fresh, Apart, Creatable;
    if files == [] {
      assert Fresh(taken, files) by { NoFiles(taken); }
      assert Apart(taken, files) by { NoFiles(taken); }
    } else {
      if Creatable(taken, files[0].name) {
        assert Stripped(files[0].name).Some? by { FirstName(taken, files); }
        AllGoodIff(taken + {Key(files[0])}, files[1..]);
        if Good(taken, files) == |files| { Earlier(taken, files); }
      }
      if Fresh(taken, files) && Apart(taken, files) { Later(taken, files); }
    }
  }

  lemma NoFiles(taken: set<seq<byte>>)
    ensures Fresh(taken, []) && Apart(taken, [])
  {
  }

  lemma FirstName(taken: set<seq<byte>>, files: seq<File>)
    requires files != [] && Creatable(taken, files[0].name)
    ensures Stripped(files[0].name).Some?
  {
  }
}
