/** Strings and words laid out as bytes. */
module Packing {
  import opened Machine
  import Counters

  predicate NoNul(s: seq<u8>) { forall i | 0 <= i < |s| :: s[i] != 0 }

  /** Strings one after another, each with its terminator. */
  function Strung(args: seq<seq<u8>>): seq<u8> {
    if args == [] then [] else args[0] + [0] + Strung(args[1..])
  }

  lemma {:induction false} StrungAppend(args: seq<seq<u8>>, s: seq<u8>)
    ensures Strung(args + [s]) == Strung(args) + s + [0]
  {
    if args == [] {
      assert (args + [s])[1..] == [];
      assert s + [0] + [] == s + [0];
    } else {
      assert (args + [s])[1..] == args[1..] + [s];
      StrungAppend(args[1..], s);
    }
  }

  lemma {:induction false} StrungSplit(a: seq<seq<u8>>, b: seq<seq<u8>>)
    ensures Strung(a + b) == Strung(a) + Strung(b)
  {
    if a == [] {
      assert a + b == b;
    } else {
      assert (a + b)[1..] == a[1..] + b;
      StrungSplit(a[1..], b);
    }
  }

  /** The C string that starts at `at` is `s`. */
  ghost predicate IsCString(bytes: seq<u8>, at: nat, s: seq<u8>) {
    && at + |s| < |bytes| && bytes[at + |s|] == 0
    && (forall i | 0 <= i < |s| :: bytes[at + i] == s[i] != 0)
  }

  /** Each packed string is found again at the offset of its predecessors' total size. */
  lemma StrungAt(bytes: seq<u8>, base: nat, args: seq<seq<u8>>, i: nat)
    requires base + |Strung(args)| <= |bytes| && bytes[base..base + |Strung(args)|] == Strung(args) && i < |args|
      && NoNul(args[i])
    ensures |Strung(args)| == |Strung(args[..i])| + |Strung(args[i..])|
    ensures IsCString(bytes, base + |Strung(args[..i])|, args[i])
  {
    hide Strung;
    var s, at := args[i], |Strung(args[..i])|;
    StrungParts(args, i);
    var flat := bytes[base..base + |Strung(args)|];
    forall j | 0 <= j < |s| ensures bytes[base + at + j] == s[j] != 0 { assert bytes[base + (at + j)] == flat[at + j]; }
    assert bytes[base + (at + |s|)] == flat[at + |s|];
  }

  lemma StrungParts(args: seq<seq<u8>>, i: nat)
    requires i < |args|
    ensures |Strung(args)| == |Strung(args[..i])| + |Strung(args[i..])| && |Strung(args[i..])| > |args[i]|
    ensures var at := |Strung(args[..i])|;
      Strung(args)[at + |args[i]|] == 0 && forall j | 0 <= j < |args[i]| :: Strung(args)[at + j] == args[i][j]
  {
    assert args == args[..i] + args[i..] && args[i..][1..] == args[i + 1..];
    StrungSplit(args[..i], args[i..]);
    assert Strung(args[i..]) == args[i] + [0] + Strung(args[i + 1..]);
  }

  // ----- little-endian words -----

  function ToBytes(x: nat, n: nat): (s: seq<u8>)
    ensures |s| == n
  {
    if n == 0 then [] else [x % 256] + ToBytes(x / 256, n - 1)
  }

  function FromBytes(s: seq<u8>): nat {
    if s == [] then 0 else s[0] + 256 * FromBytes(s[1..])
  }

  function Power256(n: nat): nat { if n == 0 then 1 else 256 * Power256(n - 1) }

  lemma {:induction false} WordRoundTrip(x: nat, n: nat)
    requires x < Power256(n)
    ensures FromBytes(ToBytes(x, n)) == x
  {
    if n > 0 {
      WordRoundTrip(x / 256, n - 1);
      assert ToBytes(x, n)[1..] == ToBytes(x / 256, n - 1);
    }
  }

  /** The least significant byte comes first. */
  lemma {:induction false} LittleEndian(x: nat, n: nat, i: nat)
    requires i < n
    ensures Power256(i) > 0 && ToBytes(x, n)[i] == x / Power256(i) % 256
  {
    if i > 0 {
      LittleEndian(x / 256, n - 1, i - 1);
      DivTwice(x, Power256(i - 1));
    }
  }

  lemma DivTwice(x: nat, p: nat)
    requires p > 0
    ensures x / 256 / p == x / (256 * p)
  {
    var q, r := x / (256 * p), x % (256 * p);
    assert x == q * (256 * p) + r;
    assert q * (256 * p) == 256 * (q * p);
    assert x / 256 == q * p + r / 256;
    Counters.QuotientIs(x / 256, p, q, r / 256);
  }

  function Words(ws: seq<nat>): (s: seq<u8>)
    ensures |s| == 8 * |ws|
  {
    if ws == [] then [] else ToBytes(ws[0], 8) + Words(ws[1..])
  }

  lemma {:induction false} WordAt(ws: seq<nat>, i: nat)
    requires i < |ws|
    ensures Words(ws)[8 * i..8 * i + 8] == ToBytes(ws[i], 8)
  {
    if i > 0 {
      WordAt(ws[1..], i - 1);
      assert Words(ws)[8 * i..8 * i + 8] == Words(ws[1..])[8 * (i - 1)..8 * (i - 1) + 8];
    }
  }

  lemma Power8()
    ensures Power256(8) == 0x1_0000_0000_0000_0000
  {
    assert Power256(2) == 0x1_0000 && Power256(4) == 0x1_0000_0000 && Power256(6) == 0x1_0000_0000_0000;
  }
}
