/**
 `ZMQ::Message#eql?` compares two messages by their sizes and by `strncmp` on their encodings. `strncmp` stops at a
 NUL, and a length or a data byte may be one.
 */
module MessageEquality {
  import opened Wrappers
  import opened Ownership
  import opened OwnershipSteps
  import D = OwnershipDiscipline
  import R = OwnershipRuns
  import Q = MessageSequence

  /** How the encoding writes the length of a frame. */
  type Header = nat -> Bytes

  /** A length takes four bytes at most. */
  const FRAME_LIMIT: nat := 0x1_0000_0000

  /** All that is asked of it: a length up to 254 is one byte, and no length is written as the beginning of another. */
  ghost predicate IsCode(h: Header) {
    && (forall n: nat :: n <= 254 ==> h(n) == [n])
    && (forall m: nat, n: nat :: m < FRAME_LIMIT && n < FRAME_LIMIT && h(m) <= h(n) ==> m == n)
  }

  predicate Fits(parts: seq<Bytes>) {
    forall i :: 0 <= i < |parts| ==> |parts[i]| < FRAME_LIMIT
  }

  function Encode(h: Header, parts: seq<Bytes>): Bytes {
    if parts == [] then [] else h(|parts[0]|) + (parts[0] + Encode(h, parts[1..]))
  }

  function ContentSize(parts: seq<Bytes>): nat {
    if parts == [] then 0 else |parts[0]| + ContentSize(parts[1..])
  }

  /** strncmp(a, b, n) == 0 for two buffers of the same length n. */
  predicate StrncmpEqual(a: Bytes, b: Bytes)
    requires |a| == |b|
  {
    a == [] || (a[0] == b[0] && (a[0] == 0 || StrncmpEqual(a[1..], b[1..])))
  }

  predicate Eql(h: Header, a: seq<Bytes>, b: seq<Bytes>) {
    && |a| == |b|
    && ContentSize(a) == ContentSize(b)
    && |Encode(h, a)| == |Encode(h, b)|
    && StrncmpEqual(Encode(h, a), Encode(h, b))
  }

  /** No byte of content follows the first NUL of the encoding: the first frame that is empty, or has a NUL in its
      length or its data, is empty or ends with it; and every later frame is empty. */
  predicate Settled(h: Header, parts: seq<Bytes>) {
    forall i :: 0 <= i < |parts| ==> SettledAt(h, parts, i)
  }

  predicate SettledAt(h: Header, parts: seq<Bytes>, i: nat)
    requires i < |parts|
  {
    0 in h(|parts[i]|) || 0 in parts[i] ==>
      && (parts[i] != [] ==> 0 !in h(|parts[i]|) && 0 !in parts[i][..|parts[i]| - 1])
      && forall j :: i < j < |parts| ==> parts[j] == []
  }

  lemma {:induction false} NoContent(parts: seq<Bytes>)
    ensures ContentSize(parts) == 0 <==> forall i :: 0 <= i < |parts| ==> parts[i] == []
  {
    if parts != [] {
      NoContent(parts[1..]);
      if ContentSize(parts) == 0 {
        forall i | 0 <= i < |parts| ensures parts[i] == [] { if i > 0 { assert parts[1..][i - 1] == []; } }
      }
    }
  }

  // ---------------------------------------------------------------------------------------------------------
  // strncmp on two buffers that begin alike
  // ---------------------------------------------------------------------------------------------------------

  /** Behind two prefixes of the same length that hold no NUL. */
  lemma {:induction false} AfterPrefix(p: Bytes, q: Bytes, a: Bytes, b: Bytes)
    requires |p| == |q| && |a| == |b| && 0 !in p
    ensures StrncmpEqual(p + a, q + b) <==> p == q && StrncmpEqual(a, b)
  {
    if p == [] {
      assert p + a == a && q + b == b;
    } else {
      assert (p + a)[1..] == p[1..] + a && (q + b)[1..] == q[1..] + b;
      AfterPrefix(p[1..], q[1..], a, b);
      assert p == q <==> p[0] == q[0] && p[1..] == q[1..];
    }
  }

  /** Two prefixes of any length, the one without a NUL: one begins the other. */
  lemma {:induction false} PrefixesMatch(p: Bytes, q: Bytes, a: Bytes, b: Bytes)
    requires |p| + |a| == |q| + |b| && 0 !in p && StrncmpEqual(p + a, q + b)
    ensures p <= q || q <= p
  {
    if p != [] && q != [] {
      assert (p + a)[0] == p[0] && (q + b)[0] == q[0];
      assert (p + a)[1..] == p[1..] + a && (q + b)[1..] == q[1..] + b;
      PrefixesMatch(p[1..], q[1..], a, b);
      assert p == [p[0]] + p[1..] && q == [q[0]] + q[1..];
    }
  }

  /** strncmp compares what stands before the first NUL of each, and where that stands. */
  lemma {:induction false} StrncmpStopsAtNul(a: Bytes, b: Bytes)
    requires |a| == |b|
    ensures StrncmpEqual(a, b) <==> a[..Q.FirstNul(a)] == b[..Q.FirstNul(b)]
  {
    if a != [] {
      var m, n := Q.FirstNul(a), Q.FirstNul(b);
      StrncmpStopsAtNul(a[1..], b[1..]);
      if a[0] != 0 && b[0] != 0 {
        assert a[..m] == [a[0]] + a[1..][..m - 1] && b[..n] == [b[0]] + b[1..][..n - 1];
        assert a[..m][1..] == a[1..][..m - 1] && b[..n][1..] == b[1..][..n - 1];
      } else if a[0] != b[0] {
        assert a[..m] != b[..n];
      }
    }
  }

  /** So two messages are reported equal exactly when they have as many frames, as much content, and encodings of the
      same length that agree up to the first NUL. */
  lemma EqlIs(h: Header, a: seq<Bytes>, b: seq<Bytes>)
    ensures var (x, y) := (Encode(h, a), Encode(h, b));
            Eql(h, a, b) <==>
              && |a| == |b| && ContentSize(a) == ContentSize(b) && |x| == |y|
              && x[..Q.FirstNul(x)] == y[..Q.FirstNul(y)]
  {
    if |Encode(h, a)| == |Encode(h, b)| { StrncmpStopsAtNul(Encode(h, a), Encode(h, b)); }
  }

  /** What comes after a NUL does not matter. */
  lemma {:induction false} NulEnds(p: Bytes, q: Bytes, a: Bytes, b: Bytes, k: nat)
    requires |p| == |q| && |a| == |b| && k < |p| && p[k] == 0 && p[..k + 1] == q[..k + 1]
    ensures StrncmpEqual(p + a, q + b)
  {
    assert p[..k + 1][0] == q[..k + 1][0];
    if p[0] != 0 {
      assert p[1..][..k] == p[..k + 1][1..] == q[..k + 1][1..] == q[1..][..k];
      assert (p + a)[1..] == p[1..] + a && (q + b)[1..] == q[1..] + b;
      NulEnds(p[1..], q[1..], a, b, k - 1);
    }
  }

  lemma {:induction false} LastMayBeNul(p: Bytes, q: Bytes, a: Bytes, b: Bytes)
    requires |p| == |q| > 0 && |a| == |b| && 0 !in p[..|p| - 1] && StrncmpEqual(p + a, q + b)
    ensures p == q
  {
    assert (p + a)[1..] == p[1..] + a && (q + b)[1..] == q[1..] + b;
    if |p| > 1 {
      assert p[0] == p[..|p| - 1][0] && p[1..][..|p| - 2] == p[..|p| - 1][1..];
      LastMayBeNul(p[1..], q[1..], a, b);
    }
    assert p == [p[0]] + p[1..] && q == [q[0]] + q[1..];
  }

  // ---------------------------------------------------------------------------------------------------------
  // A settled message is told apart from every other one
  // ---------------------------------------------------------------------------------------------------------

  /** Equal encodings, or equal as far as strncmp looks, begin with frames of the same length, unless the length of the
      first hides a NUL. */
  lemma SameFirstLength(h: Header, a: seq<Bytes>, b: seq<Bytes>)
    requires IsCode(h) && Fits(a) && Fits(b) && a != [] && b != []
    requires |Encode(h, a)| == |Encode(h, b)| && StrncmpEqual(Encode(h, a), Encode(h, b))
    requires a[0] == [] || 0 !in h(|a[0]|)
    ensures |a[0]| == |b[0]|
  {
    var p, q := h(|a[0]|), h(|b[0]|);
    if a[0] == [] {
      assert p == [0];
      if q == [] { assert q <= p; }
      assert Encode(h, a)[0] == 0;
      assert q != [] ==> Encode(h, b)[0] == q[0];
      assert q != [] && q[0] == 0 ==> p <= q;
    } else {
      PrefixesMatch(p, q, a[0] + Encode(h, a[1..]), b[0] + Encode(h, b[1..]));
    }
  }

  lemma {:induction false} SettledIsExact(h: Header, a: seq<Bytes>, b: seq<Bytes>)
    requires IsCode(h) && Fits(a) && Fits(b) && Settled(h, a) && Eql(h, a, b)
    ensures a == b
  {
    if a != [] {
      var p, q, a', b' := a[0], b[0], a[1..], b[1..];
      assert SettledAt(h, a, 0);
      SameFirstLength(h, a, b);
      assert |Encode(h, a')| == |Encode(h, b')|;
      if p == [] {
        assert h(0) == [0];
        RestIsEmpty(a, b);
      } else {
        AfterPrefix(h(|p|), h(|q|), p + Encode(h, a'), q + Encode(h, b'));
        if 0 in p {
          LastMayBeNul(p, q, Encode(h, a'), Encode(h, b'));
          RestIsEmpty(a, b);
        } else {
          AfterPrefix(p, q, Encode(h, a'), Encode(h, b'));
          SettledTail(h, a);
          SettledIsExact(h, a', b');
        }
      }
      assert a == [p] + a' && b == [q] + b';
    }
  }

  lemma RestIsEmpty(a: seq<Bytes>, b: seq<Bytes>)
    requires |a| == |b| > 0 && |a[0]| == |b[0]| && ContentSize(a) == ContentSize(b)
    requires forall j :: 0 < j < |a| ==> a[j] == []
    ensures a[1..] == b[1..]
  {
    assert forall i :: 0 <= i < |a[1..]| ==> a[1..][i] == a[i + 1] == [];
    NoContent(a[1..]);
    NoContent(b[1..]);
  }

  lemma SettledTail(h: Header, a: seq<Bytes>)
    requires a != [] && Settled(h, a)
    ensures Settled(h, a[1..])
  {
    forall i | 0 <= i < |a[1..]| ensures SettledAt(h, a[1..], i) {
      assert SettledAt(h, a, i + 1);
      assert forall j :: 0 <= j < |a[1..]| ==> a[1..][j] == a[j + 1];
    }
  }

  // ---------------------------------------------------------------------------------------------------------
  // An unsettled message has a twin
  // ---------------------------------------------------------------------------------------------------------

  function Other(x: Byte): (y: Byte)
    ensures y != x
  {
    if x == 0 then 1 else 0
  }

  /** The same lengths, one byte of content changed: the last of the first frame that has any. */
  function Changed(parts: seq<Bytes>): seq<Bytes>
    requires ContentSize(parts) > 0
  {
    if parts[0] == [] then [parts[0]] + Changed(parts[1..])
    else [parts[0][|parts[0]| - 1 := Other(parts[0][|parts[0]| - 1])]] + parts[1..]
  }

  predicate SameLengths(a: seq<Bytes>, b: seq<Bytes>) {
    |a| == |b| && forall i :: 0 <= i < |a| ==> |a[i]| == |b[i]|
  }

  lemma {:induction false} ChangedDiffers(parts: seq<Bytes>)
    requires ContentSize(parts) > 0
    ensures SameLengths(Changed(parts), parts) && Changed(parts) != parts
  {
    if parts[0] == [] {
      ChangedDiffers(parts[1..]);
      assert Changed(parts)[1..] == Changed(parts[1..]);
    } else {
      assert Changed(parts)[0][|parts[0]| - 1] != parts[0][|parts[0]| - 1];
    }
  }

  lemma {:induction false} SameSizes(h: Header, a: seq<Bytes>, b: seq<Bytes>)
    requires SameLengths(a, b)
    ensures ContentSize(a) == ContentSize(b) && |Encode(h, a)| == |Encode(h, b)|
  {
    if a != [] {
      SameSizes(h, a[1..], b[1..]);
    }
  }

  ghost predicate AreTwins(h: Header, a: seq<Bytes>, b: seq<Bytes>) {
    SameLengths(b, a) && b != a && Eql(h, a, b)
  }

  lemma {:induction false} Twin(h: Header, a: seq<Bytes>) returns (b: seq<Bytes>)
    requires IsCode(h) && !Settled(h, a)
    ensures AreTwins(h, a, b)
  {
    var i :| 0 <= i < |a| && !SettledAt(h, a, i);
    var p, code := a[0], h(|a[0]|);
    if 0 !in code && 0 !in p {
      TailUnsettled(h, a, i);
      var twin := Twin(h, a[1..]);
      b := [p] + twin;
      TwinOfTail(h, a, twin);
    } else if p != [] && (0 in code || 0 in p[..|p| - 1]) {
      b := TwinInFirst(h, a);
    } else {
      LaterContent(h, a, i);
      b := [p] + Changed(a[1..]);
      TwinBehindFirst(h, a);
    }
  }

  lemma TailUnsettled(h: Header, a: seq<Bytes>, i: nat)
    requires i < |a| && !SettledAt(h, a, i) && 0 !in h(|a[0]|) && 0 !in a[0]
    ensures i > 0 && !SettledAt(h, a[1..], i - 1)
  {
    assert a[1..][i - 1] == a[i];
    if forall j :: i - 1 < j < |a[1..]| ==> a[1..][j] == [] {
      forall j | i < j < |a| ensures a[j] == [] { assert a[1..][j - 1] == []; }
    }
  }

  lemma TwinOfTail(h: Header, a: seq<Bytes>, twin: seq<Bytes>)
    requires a != [] && 0 !in h(|a[0]|) && 0 !in a[0] && AreTwins(h, a[1..], twin)
    ensures AreTwins(h, a, [a[0]] + twin)
  {
    var b, x, y := [a[0]] + twin, Encode(h, a[1..]), Encode(h, twin);
    assert b[1..] == twin;
    assert forall i :: 0 < i < |a| ==> a[i] == a[1..][i - 1] && b[i] == twin[i - 1];
    SameSizes(h, a, b);
    AfterPrefix(a[0], a[0], x, y);
    AfterPrefix(h(|a[0]|), h(|a[0]|), a[0] + x, a[0] + y);
  }

  /** Up to a NUL in the first frame the two encodings are the same. */
  lemma TwinsByFirst(h: Header, a: seq<Bytes>, b: seq<Bytes>, k: nat)
    requires SameLengths(b, a) && b != a && a != []
    requires k < |h(|a[0]|) + a[0]| && (h(|a[0]|) + a[0])[k] == 0
    requires (h(|a[0]|) + a[0])[..k + 1] == (h(|a[0]|) + b[0])[..k + 1]
    ensures AreTwins(h, a, b)
  {
    SameSizes(h, a, b);
    SameSizes(h, a[1..], b[1..]);
    EncodeFirst(h, a);
    EncodeFirst(h, b);
    assert |a[0]| == |b[0]|;
    NulEnds(h(|a[0]|) + a[0], h(|a[0]|) + b[0], Encode(h, a[1..]), Encode(h, b[1..]), k);
  }

  lemma EncodeFirst(h: Header, a: seq<Bytes>)
    requires a != []
    ensures Encode(h, a) == (h(|a[0]|) + a[0]) + Encode(h, a[1..])
  {
    assert h(|a[0]|) + (a[0] + Encode(h, a[1..])) == (h(|a[0]|) + a[0]) + Encode(h, a[1..]);
  }

  /** A NUL in the length, or before the end of the first frame, hides its last byte. */
  lemma TwinInFirst(h: Header, a: seq<Bytes>) returns (b: seq<Bytes>)
    requires a != [] && a[0] != [] && (0 in h(|a[0]|) || 0 in a[0][..|a[0]| - 1])
    ensures AreTwins(h, a, b)
  {
    var p, code := a[0], h(|a[0]|);
    var q := p[|p| - 1 := Other(p[|p| - 1])];
    b := [q] + a[1..];
    assert b[0][|p| - 1] != a[0][|p| - 1];
    var k: nat;
    if 0 in code {
      k :| 0 <= k < |code| && code[k] == 0;
    } else {
      var j :| 0 <= j < |p| - 1 && p[..|p| - 1][j] == 0;
      k := |code| + j;
    }
    assert (code + p)[..k + 1] == (code + q)[..k + 1];
    TwinsByFirst(h, a, b, k);
  }

  /** A first frame that is empty, or ends in a NUL, hides everything behind it. */
  lemma TwinBehindFirst(h: Header, a: seq<Bytes>)
    requires a != [] && (0 in h(|a[0]|) || 0 in a[0]) && ContentSize(a[1..]) > 0
    ensures AreTwins(h, a, [a[0]] + Changed(a[1..]))
  {
    var b, all := [a[0]] + Changed(a[1..]), h(|a[0]|) + a[0];
    ChangedDiffers(a[1..]);
    assert b[1..] == Changed(a[1..]);
    assert forall i :: 0 < i < |a| ==> a[i] == a[1..][i - 1] && b[i] == b[1..][i - 1];
    assert 0 in all by {
      if 0 in a[0] {
        var j :| 0 <= j < |a[0]| && a[0][j] == 0;
        assert all[|h(|a[0]|)| + j] == 0;
      }
    }
    var k :| 0 <= k < |all| && all[k] == 0;
    TwinsByFirst(h, a, b, k);
  }

  /** When the first frame ends the comparison without being at fault itself, something with content follows. */
  lemma LaterContent(h: Header, a: seq<Bytes>, i: nat)
    requires i < |a| && !SettledAt(h, a, i)
    requires a[0] == [] || (0 !in h(|a[0]|) && 0 !in a[0][..|a[0]| - 1])
    ensures ContentSize(a[1..]) > 0
  {
    NoContent(a[1..]);
    if i > 0 && a[i] != [] {
      assert a[1..][i - 1] != [];
    } else {
      var j :| i < j < |a| && a[j] != [];
      assert a[1..][j - 1] != [];
    }
  }

  // ---------------------------------------------------------------------------------------------------------
  // The theorem
  // ---------------------------------------------------------------------------------------------------------

  /** eql? tells a message apart from all others exactly when its encoding has no content after a NUL. */
  lemma EqlIsExactIff(h: Header, a: seq<Bytes>)
    requires IsCode(h) && Fits(a)
    ensures (forall b :: Fits(b) ==> (Eql(h, a, b) <==> a == b)) <==> Settled(h, a)
  {
    if Settled(h, a) {
      forall b | Fits(b) ensures Eql(h, a, b) <==> a == b {
        if Eql(h, a, b) { SettledIsExact(h, a, b); }
        if a == b { AlwaysSame(Encode(h, a)); }
      }
    } else {
      var b := Twin(h, a);
      assert Fits(b);
    }
  }

  lemma {:induction false} AlwaysSame(a: Bytes)
    ensures StrncmpEqual(a, a)
  {
    if a != [] {
      AlwaysSame(a[1..]);
    }
  }

  /** Messages of frames without NUL bytes, each of 1 to 254 bytes or of a length written without one, are compared
      frame by frame. */
  lemma EqlOnText(h: Header, a: seq<Bytes>, b: seq<Bytes>)
    requires IsCode(h) && Fits(a) && Fits(b)
    requires forall i :: 0 <= i < |a| ==> a[i] != [] && 0 !in a[i] && (|a[i]| <= 254 || 0 !in h(|a[i]|))
    ensures Eql(h, a, b) <==> a == b
  {
    forall i | 0 <= i < |a| ensures SettledAt(h, a, i) {
      assert |a[i]| <= 254 ==> h(|a[i]|) == [|a[i]|];
    }
    EqlIsExactIff(h, a);
  }

  /** Two messages that differ and are reported equal. */
  lemma EqlConfuses(h: Header)
    requires IsCode(h)
    ensures Eql(h, [[], [1]], [[], [2]]) && [[], [1]] != [[], [2]]
  {
    var a: seq<Bytes>, b: seq<Bytes> := [[], [1]], [[], [2]];
    assert h(0) == [0];
    assert a[0] != b[0] || a[1] != b[1];
    TwinsByFirst(h, a, b, 0);
  }

  /** The encoding itself is not to blame: it loses nothing. */
  lemma {:induction false} EncodeIsInjective(h: Header, a: seq<Bytes>, b: seq<Bytes>)
    requires IsCode(h) && Fits(a) && Fits(b)
    ensures Encode(h, a) == Encode(h, b) <==> a == b
  {
    if Encode(h, a) == Encode(h, b) {
      if a == [] || b == [] {
        HeaderNotEmpty(h, a);
        HeaderNotEmpty(h, b);
      } else {
        var p, q, x, y := h(|a[0]|), h(|b[0]|), a[0] + Encode(h, a[1..]), b[0] + Encode(h, b[1..]);
        OneBegins(p, x, q, y);
        assert |a[0]| == |b[0]|;
        assert x == (p + x)[|p|..] == (q + y)[|q|..] == y;
        assert a[0] == x[..|a[0]|] == y[..|b[0]|] == b[0];
        assert Encode(h, a[1..]) == x[|a[0]|..] == y[|b[0]|..] == Encode(h, b[1..]);
        EncodeIsInjective(h, a[1..], b[1..]);
        assert a == [a[0]] + a[1..] && b == [b[0]] + b[1..];
      }
    }
  }

  // ---------------------------------------------------------------------------------------------------------
  // One such code: a length that does not fit a byte is 255 and four bytes
  // ---------------------------------------------------------------------------------------------------------

  function FourBytes(n: nat): Bytes {
    if n <= 254 then [n]
    else [255, n / 0x100_0000 % 256, n / 0x1_0000 % 256, n / 0x100 % 256, n % 256]
  }

  lemma BytesDetermine(n: nat)
    requires n < FRAME_LIMIT
    ensures n == (n / 0x100_0000 % 256) * 0x100_0000 + (n / 0x1_0000 % 256) * 0x1_0000 + (n / 0x100 % 256) * 0x100
                 + n % 256
  {
    assert n / 0x1_0000 == n / 0x100 / 0x100 && n / 0x100_0000 == n / 0x1_0000 / 0x100;
  }

  lemma FourBytesIsCode()
    ensures IsCode(FourBytes)
  {
    forall m: nat, n: nat | m < FRAME_LIMIT && n < FRAME_LIMIT && FourBytes(m) <= FourBytes(n) ensures m == n {
      var p, q := FourBytes(m), FourBytes(n);
      assert p[0] == q[0];
      if m > 254 {
        assert p == q;
        assert p[1] == q[1] && p[2] == q[2] && p[3] == q[3] && p[4] == q[4];
        BytesDetermine(m);
        BytesDetermine(n);
      }
    }
  }

  /** With this code the length of a frame of 255 bytes up to 16 megabytes has a NUL in it, which hides the frame. */
  lemma LongFramesAreConfused(a: seq<Bytes>, i: nat)
    requires Fits(a) && i < |a| && 255 <= |a[i]| < 0x100_0000
    ensures exists b :: Fits(b) && b != a && Eql(FourBytes, a, b)
  {
    FourBytesIsCode();
    assert FourBytes(|a[i]|)[1] == 0;
    assert !SettledAt(FourBytes, a, i);
    var b := Twin(FourBytes, a);
    assert Fits(b);
  }

  lemma OneBegins(p: Bytes, x: Bytes, q: Bytes, y: Bytes)
    requires p + x == q + y
    ensures p <= q || q <= p
  {
    if |p| <= |q| {
      assert p == (p + x)[..|p|] == (q + y)[..|p|] == q[..|p|];
    } else {
      assert q == (q + y)[..|q|] == (p + x)[..|q|] == p[..|q|];
    }
  }

  lemma HeaderNotEmpty(h: Header, a: seq<Bytes>)
    requires IsCode(h) && Fits(a)
    ensures a != [] ==> Encode(h, a) != []
  {
    if a != [] && h(|a[0]|) == [] {
      assert h(|a[0]|) <= h(0) && h(|a[0]|) <= h(1);
    }
  }

  // ---------------------------------------------------------------------------------------------------------
  // The call
  // ---------------------------------------------------------------------------------------------------------

  predicate FramesFit(w: World, m: nat)
    requires m in w.messages
  {
    Contents(w, w.Native(m)).Some? ==> Fits(Contents(w, w.Native(m)).value)
  }

  /** `rb_czmq_message_eql_p` */
  function MessageEql(h: Header, w: World, m: nat, n: nat): Outcome
    requires m in w.messages && n in w.messages
  {
    if !w.messages[m].owned || !w.messages[n].owned then Raise(TypeError)
    else match (Contents(w, w.Native(m)), Contents(w, w.Native(n)))
      case (Some(a), Some(b)) => Return(Bool(Eql(h, a, b)))
      case _ => Fault(UseAfterFree)
  }

  /** After any disciplined run the call reads nothing freed, and it says whether the two messages hold the same
      sequence whenever one of them has no content after a NUL of its encoding. */
  lemma MessageEqlComparesParts(h: Header, ops: seq<Op>, m: nat, n: nat)
    requires IsCode(h) && R.GoodRun(EMPTY_WORLD, ops)
    requires var w := R.Run(EMPTY_WORLD, ops); w.OwnedMessage(m) && w.OwnedMessage(n)
    requires FramesFit(R.Run(EMPTY_WORLD, ops), m) && FramesFit(R.Run(EMPTY_WORLD, ops), n)
    ensures var w := R.Run(EMPTY_WORLD, ops);
            var (a, b) := (Q.Parts(w, m), Q.Parts(w, n));
            && MessageEql(h, w, m, n) == Return(Bool(Eql(h, a, b)))
            && (Settled(h, a) || Settled(h, b) ==> MessageEql(h, w, m, n) == Return(Bool(a == b)))
  {
    R.EmptyIsGood();
    R.RunKeepsInv(EMPTY_WORLD, ops);
    var w := R.Run(EMPTY_WORLD, ops);
    ReadParts(w, m);
    ReadParts(w, n);
    var a, b := Q.Parts(w, m), Q.Parts(w, n);
    EqlIsSymmetric(h, a, b);
    if Settled(h, a) { EqlIsExactIff(h, a); }
    if Settled(h, b) { EqlIsExactIff(h, b); }
  }

  /** A message that is gone makes the call raise, whichever of the two it is; otherwise it reads nothing freed, and it
      answers true or false. */
  lemma MessageEqlAnswers(h: Header, w: World, m: nat, n: nat)
    requires Inv(w) && HasMessage(w, m) && HasMessage(w, n)
    ensures MessageEql(h, w, m, n) ==
            if w.messages[m].owned && w.messages[n].owned
            then Return(Bool(Eql(h, Q.Parts(w, m), Q.Parts(w, n)))) else Raise(TypeError)
  {
    if w.messages[m].owned { ReadParts(w, m); }
    if w.messages[n].owned { ReadParts(w, n); }
  }

  lemma ReadParts(w: World, m: nat)
    requires Inv(w) && w.OwnedMessage(m)
    ensures Contents(w, w.Native(m)) == Some(Q.Parts(w, m))
  {
    D.OwningMessage(w, m);
    D.ContentsOfLive(w, w.Native(m));
    assert Contents(w, w.Native(m)).value == Q.Parts(w, m);
  }

  lemma EqlIsSymmetric(h: Header, a: seq<Bytes>, b: seq<Bytes>)
    ensures Eql(h, a, b) <==> Eql(h, b, a)
  {
    if |Encode(h, a)| == |Encode(h, b)| { StrncmpIsSymmetric(Encode(h, a), Encode(h, b)); }
  }

  lemma {:induction false} StrncmpIsSymmetric(a: Bytes, b: Bytes)
    requires |a| == |b|
    ensures StrncmpEqual(a, b) <==> StrncmpEqual(b, a)
  {
    if a != [] { StrncmpIsSymmetric(a[1..], b[1..]); }
  }
}
