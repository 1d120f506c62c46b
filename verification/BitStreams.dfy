/** Numbers of a fixed width laid out as a stream of bits, the most significant first. */
module BitStreams {
  import opened Bits
  import opened Radix

  /** The bits of x in a field of the given width. */
  function BitsOf(x: nat, width: nat): (s: seq<nat>)
    ensures |s| == width && forall j | 0 <= j < width :: s[j] == Bit(x, width - 1 - j)
  {
    seq(width, j requires 0 <= j < width => Bit(x, width - 1 - j))
  }

  lemma {:induction false} NumBitsOf(x: nat, width: nat)
    requires x < Pow2(width)
    ensures Num(BitsOf(x, width), 2) == x && Digits(BitsOf(x, width), 2)
  {
    if width > 0 {
      NumBitsOf(x / 2, width - 1);
      assert BitsOf(x, width) == BitsOf(x / 2, width - 1) + [x % 2];
      NumSnoc(BitsOf(x / 2, width - 1), x % 2, 2);
    }
  }

  lemma {:induction false} BitsOfNum(s: seq<nat>)
    requires Digits(s, 2)
    ensures BitsOf(Num(s, 2), |s|) == s && Num(s, 2) < Pow2(|s|)
  {
    if s != [] {
      var n := |s| - 1;
      var v, t := Num(s, 2), s[..n];
      BitsOfNum(t);
      assert v == 2 * Num(t, 2) + s[n];
      assert v / 2 == Num(t, 2) && v % 2 == s[n];
      assert BitsOf(v, |s|) == BitsOf(v / 2, n) + [v % 2];
      assert s == t + [s[n]];
    }
  }

  /** Where field number i begins: width times i. */
  function At(width: nat, i: nat): nat {
    if i == 0 then 0 else At(width, i - 1) + width
  }

  lemma {:induction false} AtIs(width: nat, i: nat)
    ensures At(width, i) == width * i
  {
    if i > 0 {
      AtIs(width, i - 1);
      assert width * i == width * (i - 1) + width;
    }
  }

  lemma {:induction false} AtMono(width: nat, i: nat, j: nat)
    requires i < j
    ensures At(width, i) + width <= At(width, j)
  {
    if i < j - 1 { AtMono(width, i, j - 1); }
  }

  /** Fields one after the other. */
  function Flatten(xs: seq<nat>, width: nat): (s: seq<nat>) {
    if xs == [] then [] else Flatten(xs[..|xs| - 1], width) + BitsOf(xs[|xs| - 1], width)
  }

  lemma {:induction false} FlattenLength(xs: seq<nat>, width: nat)
    ensures |Flatten(xs, width)| == At(width, |xs|)
  {
    if xs != [] {
      FlattenLength(xs[..|xs| - 1], width);
    }
  }

  lemma FlattenSnoc(xs: seq<nat>, x: nat, width: nat)
    ensures Flatten(xs + [x], width) == Flatten(xs, width) + BitsOf(x, width)
  {
    assert (xs + [x])[..|xs|] == xs;
  }

  /** Field number i of a stream. */
  function Field(s: seq<nat>, width: nat, i: nat): seq<nat>
    requires At(width, i) + width <= |s|
  {
    s[At(width, i)..At(width, i) + width]
  }

  lemma {:induction false} FieldOfFlatten(xs: seq<nat>, width: nat, i: nat)
    requires i < |xs|
    ensures At(width, i) + width <= |Flatten(xs, width)| && Field(Flatten(xs, width), width, i) == BitsOf(xs[i], width)
  {
    var n := |xs| - 1;
    FlattenLength(xs[..n], width);
    if i < n {
      FieldOfFlatten(xs[..n], width, i);
      AtMono(width, i, n);
    }
  }

  /** The first n fields of a stream, as numbers. */
  function Group(s: seq<nat>, width: nat, n: nat): (xs: seq<nat>)
    requires At(width, n) <= |s|
    ensures |xs| == n
  {
    if n == 0 then [] else Group(s, width, n - 1) + [Num(Field(s, width, n - 1), 2)]
  }

  lemma {:induction false} GroupAt(s: seq<nat>, width: nat, n: nat, i: nat)
    requires At(width, n) <= |s| && i < n
    ensures At(width, i) + width <= |s| && Group(s, width, n)[i] == Num(Field(s, width, i), 2)
  {
    AtMono(width, i, n);
    if i < n - 1 { GroupAt(s, width, n - 1, i); }
  }

  lemma TakeMore(s: seq<nat>, a: nat, width: nat)
    requires a + width <= |s|
    ensures s[..a + width] == s[..a] + s[a..a + width]
  {
  }

  lemma FieldBitsOfNumber(s: seq<nat>, width: nat, i: nat)
    requires At(width, i) + width <= |s| && Digits(s, 2)
    ensures BitsOf(Num(Field(s, width, i), 2), width) == Field(s, width, i)
  {
    BitsOfNum(Field(s, width, i));
  }

  /** Regrouping loses nothing. */
  lemma {:induction false} FlattenGroup(s: seq<nat>, width: nat, n: nat)
    requires At(width, n) <= |s| && Digits(s, 2)
    ensures Flatten(Group(s, width, n), width) == s[..At(width, n)]
  {
    if n > 0 {
      FlattenGroup(s, width, n - 1);
      var x := Num(Field(s, width, n - 1), 2);
      FieldBitsOfNumber(s, width, n - 1);
      FlattenSnoc(Group(s, width, n - 1), x, width);
      TakeMore(s, At(width, n - 1), width);
    }
  }

  lemma {:induction false} FlattenDigits(xs: seq<nat>, width: nat)
    ensures Digits(Flatten(xs, width), 2)
  {
    if xs != [] {
      FlattenDigits(xs[..|xs| - 1], width);
      var b := BitsOf(xs[|xs| - 1], width);
      forall j | 0 <= j < width ensures b[j] < 2 { BitRange(xs[|xs| - 1], width - 1 - j); }
    }
  }

  /** The number in a field that holds the bits of x. */
  lemma FieldNumber(f: seq<nat>, x: nat, width: nat)
    requires f == BitsOf(x, width) && x < Pow2(width)
    ensures Num(f, 2) == x
  {
    NumBitsOf(x, width);
  }

  lemma FieldBits(s: seq<nat>, xs: seq<nat>, width: nat, i: nat, n: nat)
    requires n == At(width, |xs|) <= |s| && s[..n] == Flatten(xs, width) && i < |xs|
    ensures At(width, i) + width <= |s| && Field(s, width, i) == BitsOf(xs[i], width)
  {
    AtMono(width, i, |xs|);
    FieldOfFlatten(xs, width, i);
    SubField(s, n, At(width, i), width);
  }

  lemma GroupFlattenAt(s: seq<nat>, xs: seq<nat>, width: nat, i: nat)
    requires At(width, |xs|) <= |s| && s[..At(width, |xs|)] == Flatten(xs, width) && i < |xs| && xs[i] < Pow2(width)
    ensures Group(s, width, |xs|)[i] == xs[i]
  {
    FieldBits(s, xs, width, i, At(width, |xs|));
    FieldNumber(Field(s, width, i), xs[i], width);
    GroupAt(s, width, |xs|, i);
  }

  lemma SubField(s: seq<nat>, n: nat, a: nat, width: nat)
    requires a + width <= n <= |s|
    ensures s[..n][a..a + width] == s[a..a + width]
  {
  }

  /** A stream that starts with the fields of xs groups back into xs. */
  lemma GroupFlatten(s: seq<nat>, xs: seq<nat>, width: nat)
    requires At(width, |xs|) <= |s| && s[..At(width, |xs|)] == Flatten(xs, width)
    requires forall i | 0 <= i < |xs| :: xs[i] < Pow2(width)
    ensures Group(s, width, |xs|) == xs
  {
    forall i | 0 <= i < |xs| ensures Group(s, width, |xs|)[i] == xs[i] { GroupFlattenAt(s, xs, width, i); }
  }
}
