/**
 * The IPv4 subnet calculator (tools/ip_subnet/subcalc.py).
 *
 * A calculator is built once from a dotted address and a prefix length and is never changed
 * afterwards, so it is a datatype. `get_network_id` and `get_broadcast` search for the block of
 * size `x + 1` that holds the octet where the prefix ends; that search is a method with a loop,
 * proved against `BlockOf`.
 *
 * What the answers mean is stated per octet: octet `k` of an address has `HostBitsIn(prefix, k)`
 * host bits (none in the octets the prefix covers, all eight in the octets after it,
 * `8 - prefix % 8` in the octet where it ends). The network address clears them, the broadcast
 * address sets them, and the mask has ones everywhere else.
 */
module Subnet {
  import opened Types
  import PyStr

  // ---------------------------------------------------------------- dotted addresses

  /** `".".join(xs)`, built from the last piece backwards (`DotJoinIsJoin`). */
  function DotJoin(xs: seq<string>): string
    decreases |xs|
  {
    if |xs| == 0 then ""
    else if |xs| == 1 then xs[0]
    else DotJoin(xs[..|xs| - 1]) + ['.'] + xs[|xs| - 1]
  }

  /** `nw_part` of `get_network_id`: the joined leading pieces, then a dot when there are any. */
  function Lead(head: seq<string>): string
  {
    var part := DotJoin(head);
    if part != "" then part + ['.'] else part
  }

  /** `[s] * m` */
  function Copies(s: string, m: nat): seq<string>
  {
    seq(m, _ => s)
  }

  /** Pieces of a dotted string: non-empty and free of dots. */
  predicate Pieces(xs: seq<string>)
  {
    forall k :: 0 <= k < |xs| ==> xs[k] != "" && '.' !in xs[k]
  }

  lemma {:induction false} JoinSnoc(xs: seq<string>, s: string, sep: string)
    requires |xs| >= 1
    ensures PyStr.Join(xs + [s], sep) == PyStr.Join(xs, sep) + sep + s
    decreases |xs|
  {
    if |xs| > 1 {
      assert (xs + [s])[1..] == xs[1..] + [s];
      JoinSnoc(xs[1..], s, sep);
    }
  }

  lemma {:induction false} DotJoinIsJoin(xs: seq<string>)
    ensures DotJoin(xs) == PyStr.Join(xs, ['.'])
    decreases |xs|
  {
    if |xs| > 1 {
      var init := xs[..|xs| - 1];
      DotJoinIsJoin(init);
      assert xs == init + [xs[|xs| - 1]];
      JoinSnoc(init, xs[|xs| - 1], ['.']);
    }
  }

  lemma DotSnoc(xs: seq<string>, s: string)
    requires |xs| >= 1
    ensures DotJoin(xs + [s]) == DotJoin(xs) + ['.'] + s
  {
    assert (xs + [s])[..|xs|] == xs;
  }

  /** Appending one piece to the leading ones. */
  lemma DotLast(head: seq<string>, s: string)
    requires Pieces(head)
    ensures DotJoin(head + [s]) == Lead(head) + s
  {
    if |head| == 0 {
      assert head + [s] == [s];
    } else {
      DotSnoc(head, s);
      assert |DotJoin(head)| >= |head[|head| - 1]| > 0;
    }
  }

  lemma {:induction false} RepeatSnoc(t: string, m: nat)
    ensures PyStr.Repeat(t, m + 1) == PyStr.Repeat(t, m) + t
  {
    if m > 0 {
      RepeatSnoc(t, m - 1);
    }
  }

  /** The leading pieces, then `s`, then `m` copies of `v`, written the way `get_network_id` and
      `get_broadcast` write them. */
  lemma {:induction false} DotFill(head: seq<string>, s: string, m: nat, v: string)
    requires Pieces(head)
    ensures DotJoin(head + [s] + Copies(v, m)) == Lead(head) + s + PyStr.Repeat(['.'] + v, m)
  {
    var t := ['.'] + v;
    if m == 0 {
      calc {
        DotJoin(head + [s] + Copies(v, m));
        { assert head + [s] + Copies(v, m) == head + [s]; }
        DotJoin(head + [s]);
        { DotLast(head, s); }
        Lead(head) + s;
      }
    } else {
      var a := head + [s] + Copies(v, m - 1);
      calc {
        DotJoin(head + [s] + Copies(v, m));
        { assert head + [s] + Copies(v, m) == a + [v]; }
        DotJoin(a + [v]);
        { DotSnoc(a, v); }
        DotJoin(a) + t;
        { DotFill(head, s, m - 1, v); }
        Lead(head) + s + PyStr.Repeat(t, m - 1) + t;
        { RepeatSnoc(t, m - 1); }
        Lead(head) + s + PyStr.Repeat(t, m);
      }
    }
  }

  /** `(s + ".") * q` is the dotted run of `q` copies of `s` followed by a dot. */
  lemma {:induction false} RepeatLead(s: string, q: nat)
    requires s != "" && '.' !in s
    ensures PyStr.Repeat(s + ['.'], q) == Lead(Copies(s, q))
  {
    if q == 1 {
      assert Copies(s, 1) == [s];
    } else if q > 1 {
      calc {
        Lead(Copies(s, q));
        { assert Copies(s, q) == Copies(s, q - 1) + [s]; }
        DotJoin(Copies(s, q - 1) + [s]) + ['.'];
        { DotLast(Copies(s, q - 1), s); }
        Lead(Copies(s, q - 1)) + s + ['.'];
        { RepeatLead(s, q - 1); }
        PyStr.Repeat(s + ['.'], q - 1) + (s + ['.']);
        { RepeatSnoc(s + ['.'], q - 1); }
        PyStr.Repeat(s + ['.'], q);
      }
    }
  }

  /** A dotted string of pieces starts with the first piece and ends with the last one. */
  lemma {:induction false} DotEnds(xs: seq<string>)
    requires |xs| >= 1 && Pieces(xs)
    ensures |DotJoin(xs)| >= 1 && DotJoin(xs)[0] == xs[0][0]
    ensures DotJoin(xs)[|DotJoin(xs)| - 1] == xs[|xs| - 1][|xs[|xs| - 1]| - 1]
    decreases |xs|
  {
    if |xs| > 1 {
      DotEnds(xs[..|xs| - 1]);
    }
  }

  /** `map(str, os)` */
  function Strs(os: seq<int>): seq<string>
  {
    seq(|os|, k requires 0 <= k < |os| => PyStr.IntToStr(os[k]))
  }

  /** `".".join(map(str, os))` */
  function Dotted(os: seq<int>): string
  {
    DotJoin(Strs(os))
  }

  /** `[int(o) for o in pieces]`: the first piece that is not an integer raises its error. */
  function ParseAll(pieces: seq<string>): Result<seq<int>>
  {
    if |pieces| == 0 then Ok([])
    else
      var v := PyStr.ParseInt(pieces[0]);
      if v.Raise? then Raise(v.error)
      else
        var vs := ParseAll(pieces[1..]);
        if vs.Raise? then Raise(vs.error) else Ok([v.value] + vs.value)
  }

  /** The strings of an address are the string of its first octet, then the strings of the
      rest. */
  lemma StrsFirst(os: seq<int>)
    requires |os| >= 1
    ensures |Strs(os)| >= 1 && Strs(os)[0] == PyStr.IntToStr(os[0]) && Strs(os)[1..] == Strs(os[1..])
  {
  }

  /** Pieces whose first one reads as the first integer and whose rest read as the rest. */
  lemma ParseAllCons(pieces: seq<string>, vs: seq<int>)
    requires |pieces| >= 1 && |vs| >= 1 && PyStr.ParseInt(pieces[0]) == Ok(vs[0])
    requires ParseAll(pieces[1..]) == Ok(vs[1..])
    ensures ParseAll(pieces) == Ok(vs)
  {
    assert [vs[0]] + vs[1..] == vs;
  }

  /** Reading the strings of some integers gives the integers back. */
  lemma {:induction false} ParseAllStrs(os: seq<int>)
    ensures ParseAll(Strs(os)) == Ok(os)
    decreases |os|
  {
    if |os| > 0 {
      var xs := Strs(os);
      StrsFirst(os);
      PyStr.ParseIntAt(xs[0], os[0]);
      ParseAllStrs(os[1..]);
      ParseAllCons(xs, os);
    }
  }

  /** `_ip_parcala()`: the octets of a dotted address. */
  function Octets(ip: string): Result<seq<int>>
  {
    ParseAll(PyStr.SplitOn(ip, '.'))
  }

  /** `[v] * m` */
  function Fill(v: int, m: nat): seq<int>
  {
    seq(m, _ => v)
  }

  /** A four-octet address read as a 32-bit number, octet 0 the most significant. */
  function Number(os: seq<int>): int
    requires |os| == 4
  {
    ((os[0] * 256 + os[1]) * 256 + os[2]) * 256 + os[3]
  }

  predicate IsAddress(os: seq<int>)
  {
    |os| == 4 && forall k :: 0 <= k < 4 ==> 0 <= os[k] <= 255
  }

  lemma IntToStrNoDot(n: int)
    ensures '.' !in PyStr.IntToStr(n)
  {
    var r := PyStr.IntToStr(n);
    if n < 0 {
      var d := PyStr.NatToStr(-n);
      assert r == "-" + d;
      forall k | 0 <= k < |r|
        ensures r[k] != '.'
      {
        if k > 0 { assert r[k] == d[k - 1]; }
      }
    } else {
      forall k | 0 <= k < |r|
        ensures r[k] != '.'
      {
        assert PyStr.IsDigit(r[k]);
      }
    }
  }

  lemma StrsPieces(os: seq<int>)
    ensures Pieces(Strs(os))
  {
    forall k | 0 <= k < |os|
      ensures '.' !in PyStr.IntToStr(os[k])
    {
      IntToStrNoDot(os[k]);
    }
  }

  /** Splitting a dotted address gives back the strings of its octets. */
  lemma DottedSplit(os: seq<int>)
    requires |os| >= 1
    ensures PyStr.SplitOn(Dotted(os), '.') == Strs(os)
  {
    var xs := Strs(os);
    StrsPieces(os);
    DotJoinIsJoin(xs);
    PyStr.SplitJoin(xs, '.');
  }

  /** Reading a dotted address gives back its octets: `_ip_parcala` inverts `Dotted`. */
  lemma DottedOctets(os: seq<int>)
    requires |os| >= 1
    ensures Octets(Dotted(os)) == Ok(os)
  {
    DottedSplit(os);
    ParseAllStrs(os);
  }


  /** The address made of `head`, then `k`, then `m` copies of `v`. */
  lemma DottedFill(head: seq<int>, k: int, m: nat, v: int)
    ensures Dotted(head + [k] + Fill(v, m))
         == Lead(Strs(head)) + PyStr.IntToStr(k) + PyStr.Repeat(['.'] + PyStr.IntToStr(v), m)
  {
    var s, w := PyStr.IntToStr(k), PyStr.IntToStr(v);
    assert Strs(head + [k] + Fill(v, m)) == Strs(head) + [s] + Copies(w, m);
    StrsPieces(head);
    DotFill(Strs(head), s, m, w);
  }

  /** `DottedFill` for an address known to be `head`, then `k`, then `m` copies of `v`. */
  lemma DottedFillAt(os: seq<int>, head: seq<int>, k: int, m: nat, v: int)
    requires os == head + [k] + Fill(v, m)
    ensures Dotted(os) == Lead(Strs(head)) + PyStr.IntToStr(k) + PyStr.Repeat(['.'] + PyStr.IntToStr(v), m)
  {
    DottedFill(head, k, m, v);
  }

  /** A dotted address neither starts nor ends with a dot. */
  lemma DottedEnds(os: seq<int>)
    requires |os| >= 1
    ensures |Dotted(os)| >= 1 && Dotted(os)[0] != '.' && Dotted(os)[|Dotted(os)| - 1] != '.'
  {
    var xs := Strs(os);
    StrsPieces(os);
    DotEnds(xs);
    assert xs[0][0] in xs[0];
    var last := xs[|xs| - 1];
    assert last[|last| - 1] in last;
  }

  // ---------------------------------------------------------------- bits of an octet

  lemma Pow2Bytes()
    ensures PyStr.Pow2(0) == 1 && PyStr.Pow2(8) == 256 && PyStr.Pow2(16) == 65536
    ensures PyStr.Pow2(24) == 16777216 && PyStr.Pow2(32) == 4294967296
  {
    assert PyStr.Pow2(1) == 2;
    assert PyStr.Pow2(2) == 4;
    assert PyStr.Pow2(3) == 8;
    assert PyStr.Pow2(4) == 16;
    assert PyStr.Pow2(5) == 32;
    assert PyStr.Pow2(6) == 64;
    assert PyStr.Pow2(7) == 128;
    assert PyStr.Pow2(8) == 256;
    PyStr.Pow2Add(8, 8);
    PyStr.Pow2Add(16, 8);
    PyStr.Pow2Add(24, 8);
  }

  /** The number of host bits in octet `k` of an address under prefix `p`. */
  function HostBitsIn(p: int, k: int): (h: nat)
    ensures h <= 8
  {
    if p - 8 * k >= 8 then 0 else if p - 8 * k <= 0 then 8 else 8 - (p - 8 * k)
  }

  /** Octet `o` with its low `h` bits cleared. */
  function ClearLow(o: int, h: nat): int
  {
    (o / PyStr.Pow2(h)) * PyStr.Pow2(h)
  }

  /** Octet `o` with its low `h` bits set. */
  function SetLow(o: int, h: nat): int
  {
    ClearLow(o, h) + PyStr.Pow2(h) - 1
  }

  /** The intended network address: every host bit cleared. */
  function NetOctets(os: seq<int>, p: int): (r: seq<int>)
    ensures |r| == |os|
  {
    seq(|os|, k requires 0 <= k < |os| => ClearLow(os[k], HostBitsIn(p, k)))
  }

  /** The intended broadcast address: every host bit set. */
  function BroadcastOctets(os: seq<int>, p: int): (r: seq<int>)
    ensures |r| == |os|
  {
    seq(|os|, k requires 0 <= k < |os| => SetLow(os[k], HostBitsIn(p, k)))
  }

  /** The intended subnet mask: ones in the network bits, zeros in the host bits. */
  function MaskOctets(p: int): (r: seq<int>)
    ensures |r| == 4
  {
    seq(4, k => 256 - PyStr.Pow2(HostBitsIn(p, k)))
  }

  /** The text `get_mask()` builds before stripping dots: `q` copies of `"255."`, the octet
      where the prefix ends, and `".0"` for each octet after it. */
  function MaskText(p: int): string
  {
    PyStr.Repeat("255.", p / 8) + PyStr.IntToStr(255 - (PyStr.Pow2(8 - p % 8) - 1))
      + PyStr.Repeat(".0", 4 - p / 8 - 1)
  }

  /** The corrected `get_mask()`: four octets for every prefix from 0 to 32. */
  function Mask(p: int): string
  {
    Dotted(MaskOctets(p))
  }

  /** The number whose four octets hold `2 ** h - 1` for the host bits `h` of each octet. */
  function HostNumber(p: int): int
  {
    var h0, h1, h2, h3 := HostBitsIn(p, 0), HostBitsIn(p, 1), HostBitsIn(p, 2), HostBitsIn(p, 3);
    (((PyStr.Pow2(h0) - 1) * 256 + PyStr.Pow2(h1) - 1) * 256 + PyStr.Pow2(h2) - 1) * 256
      + PyStr.Pow2(h3) - 1
  }

  /** The host bits of each octet: none before octet `p / 8`, `8 - p % 8` in it, all after. */
  lemma HostBitsOf(p: int, k: int)
    requires 0 <= p <= 32 && 0 <= k < 4
    ensures k < p / 8 ==> HostBitsIn(p, k) == 0
    ensures k == p / 8 ==> HostBitsIn(p, k) == 8 - p % 8
    ensures k > p / 8 ==> HostBitsIn(p, k) == 8
  {
  }

  /** `HostNumber` once the host bits of each octet are known. */
  lemma HostNumberOf(p: int, a: nat, b: nat, c: nat, d: nat)
    requires HostBitsIn(p, 0) == a && HostBitsIn(p, 1) == b && HostBitsIn(p, 2) == c
    requires HostBitsIn(p, 3) == d
    ensures HostNumber(p)
         == (((PyStr.Pow2(a) - 1) * 256 + PyStr.Pow2(b) - 1) * 256 + PyStr.Pow2(c) - 1) * 256
            + PyStr.Pow2(d) - 1
  {
  }

  /** All the host bits of an address, as a number, are `2 ** (32 - p) - 1`. */
  lemma HostSpan(p: int)
    requires 0 <= p <= 32
    ensures HostNumber(p) == PyStr.Pow2(32 - p) - 1
  {
    if p < 8 {
      HostSpan0(p);
    } else if p < 16 {
      HostSpan1(p);
    } else if p < 24 {
      HostSpan2(p);
    } else {
      Pow2Bytes();
      HostNumberOf(p, 0, 0, 0, 32 - p);
    }
  }

  lemma HostSpan0(p: int)
    requires 0 <= p < 8
    ensures HostNumber(p) == PyStr.Pow2(32 - p) - 1
  {
    Pow2Bytes();
    HostNumberOf(p, 8 - p, 8, 8, 8);
    OnesSplit(8 - p, 24, 32 - p);
  }

  lemma HostSpan1(p: int)
    requires 8 <= p < 16
    ensures HostNumber(p) == PyStr.Pow2(32 - p) - 1
  {
    Pow2Bytes();
    HostNumberOf(p, 0, 16 - p, 8, 8);
    OnesSplit(16 - p, 16, 32 - p);
  }

  lemma HostSpan2(p: int)
    requires 16 <= p < 24
    ensures HostNumber(p) == PyStr.Pow2(32 - p) - 1
  {
    Pow2Bytes();
    HostNumberOf(p, 0, 0, 24 - p, 8);
    OnesSplit(24 - p, 8, 32 - p);
  }

  /** Ones in `a` high bits followed by ones in `b` low bits make `c = a + b` ones. */
  lemma OnesSplit(a: nat, b: nat, c: nat)
    requires c == a + b
    ensures (PyStr.Pow2(a) - 1) * PyStr.Pow2(b) + PyStr.Pow2(b) - 1 == PyStr.Pow2(c) - 1
  {
    PyStr.Pow2Add(a, b);
  }

  /** The corrected mask is the 32-bit number whose top `p` bits are ones and the rest zeros,
      and it reads back as four octets. */
  lemma MaskValue(p: int)
    requires 0 <= p <= 32
    ensures Number(MaskOctets(p)) == PyStr.Pow2(32) - PyStr.Pow2(32 - p)
    ensures Octets(Mask(p)) == Ok(MaskOctets(p))
  {
    var ms := MaskOctets(p);
    assert ms[0] == 255 - (PyStr.Pow2(HostBitsIn(p, 0)) - 1);
    assert ms[1] == 255 - (PyStr.Pow2(HostBitsIn(p, 1)) - 1);
    assert ms[2] == 255 - (PyStr.Pow2(HostBitsIn(p, 2)) - 1);
    assert ms[3] == 255 - (PyStr.Pow2(HostBitsIn(p, 3)) - 1);
    assert Number(ms) == 4294967295 - HostNumber(p);
    HostSpan(p);
    Pow2Bytes();
    DottedOctets(ms);
  }

  /** The host bits in the four octets add up to `32 - p`. */
  lemma HostBitsTotal(p: int)
    requires 0 <= p <= 32
    ensures HostBitsIn(p, 0) + HostBitsIn(p, 1) + HostBitsIn(p, 2) + HostBitsIn(p, 3) == 32 - p
  {
  }

  // ---------------------------------------------------------------- the calculator

  /** A Python number: an int, or a float given exactly as the fraction `num / den`. */
  datatype PyNumber = PyInt(i: int) | PyFloat(num: int, den: nat)

  /** A power of two above 1 is even. */
  lemma PowerOf2Even(k: nat)
    ensures PyStr.Pow2(k) % 2 == (if k == 0 then 1 else 0)
  {
  }

  datatype SubnetCalculator = SubnetCalculator(
    ipAdres: string, prefix: int, oktetler: seq<int>, x: int, nwCount: int)
  {
    /** What `__init__` establishes: `nwCount` whole octets are covered by the prefix, and
        `x + 1` is the size of a block in the octet where the prefix ends. */
    predicate Valid()
    {
      0 <= prefix - 8 * nwCount < 8 && x + 1 == PyStr.Pow2(8 - (prefix - 8 * nwCount))
    }

    /** `get_mask()` */
    function GetMask(): string
    {
      PyStr.Strip(MaskText(prefix), {'.'})
    }

    /** `get_host_bits()` */
    function GetHostBits(): int
    {
      32 - prefix
    }

    /** `get_max_hosts()`: an int while `32 - prefix` is not negative; beyond 32 Python's
        power is the float `2 ** -(prefix - 32)`, so the answer is a float between -2 and -1.5. */
    function GetMaxHosts(): (r: PyNumber)
      ensures r.PyInt? <==> prefix <= 32
      ensures r.PyInt? ==> r.i >= -1 && (r.i + 2) % 2 == (if prefix == 32 then 1 else 0)
      ensures r.PyFloat? ==> r.den >= 2 && -2 * r.den < r.num && 2 * r.num <= -3 * r.den
    {
      if prefix <= 32 then PowerOf2Even(32 - prefix); PyInt(PyStr.Pow2(32 - prefix) - 2)
      else
        var d := PyStr.Pow2(prefix - 32);
        PowerOf2Even(prefix - 32);
        PyFloat(1 - 2 * d, d)
    }

    /** `self.oktetler[self.nw_count]`, negative indices counting from the end. */
    function Octet(): (r: Result<int>)
      ensures r.Raise? ==> r.error == "IndexError"
    {
      var i := if nwCount < 0 then nwCount + |oktetler| else nwCount;
      if 0 <= i < |oktetler| then Ok(oktetler[i]) else Raise("IndexError")
    }

    /** `self.oktetler[:self.nw_count]` */
    function Head(): seq<int>
    {
      var n := if nwCount < 0 then nwCount + |oktetler| else nwCount;
      if n <= 0 then [] else if n >= |oktetler| then oktetler else oktetler[..n]
    }

    /** Where the search for the block holding `o` stops. */
    function BlockOf(o: int): int
      requires Valid()
    {
      if o < 0 then 0 else (o / (x + 1)) * (x + 1)
    }

    /** The `while` loop of `get_network_id` and `get_broadcast`: the block of size `x + 1`
        that holds `o` starts at `k` (at 0 when `o` is negative). */
    method BlockStart(o: int) returns (k: int)
      requires Valid()
      ensures k == BlockOf(o)
      ensures 0 <= k && k % (x + 1) == 0 && o <= k + x && (o >= 0 ==> k <= o)
    {
      k := 0;
      ghost var m := 0;
      while o > k + x
        invariant 0 <= m && k == m * (x + 1)
        invariant k == 0 || k <= o
        decreases o - k
      {
        k := k + (x + 1);
        m := m + 1;
        assert k == m * (x + 1);
      }
      PyStr.DivModUnique(k, x + 1, m, 0);
      if o >= 0 {
        PyStr.DivModUnique(o, x + 1, m, o - k);
      }
    }

    function NetworkIdSpec(): Result<string>
      requires Valid()
    {
      match Octet()
      case Raise(e) => Raise(e)
      case Ok(o) => Ok(Lead(Strs(Head())) + PyStr.IntToStr(BlockOf(o)) + PyStr.Repeat(".0", 4 - nwCount - 1))
    }

    function BroadcastSpec(): Result<string>
      requires Valid()
    {
      match Octet()
      case Raise(e) => Raise(e)
      case Ok(o) => Ok(Lead(Strs(Head())) + PyStr.IntToStr(BlockOf(o) + x) + PyStr.Repeat(".255", 4 - nwCount - 1))
    }

    /** `get_network_id()` */
    method GetNetworkId() returns (r: Result<string>)
      requires Valid()
      ensures r == NetworkIdSpec()
    {
      var o := Octet();
      if o.Raise? {
        return Raise(o.error);
      }
      var k := BlockStart(o.value);
      var nwPart := Dotted(Head());
      if nwPart != "" {
        nwPart := nwPart + ['.'];
      }
      r := Ok(nwPart + PyStr.IntToStr(k) + PyStr.Repeat(".0", 4 - nwCount - 1));
    }

    /** `get_broadcast()` */
    method GetBroadcast() returns (r: Result<string>)
      requires Valid()
      ensures r == BroadcastSpec()
    {
      var o := Octet();
      if o.Raise? {
        return Raise(o.error);
      }
      var k := BlockStart(o.value);
      var i := k + x;
      var nwPart := Dotted(Head());
      if nwPart != "" {
        nwPart := nwPart + ['.'];
      }
      r := Ok(nwPart + PyStr.IntToStr(i) + PyStr.Repeat(".255", 4 - nwCount - 1));
    }

    function FirstIpSpec(): Result<string>
      requires Valid()
    {
      BumpAddress(NetworkIdSpec(), 1)
    }

    function LastIpSpec(): Result<string>
      requires Valid()
    {
      BumpAddress(BroadcastSpec(), -1)
    }

    /** `get_first_ip()` */
    method GetFirstIp() returns (r: Result<string>)
      requires Valid()
      ensures r == FirstIpSpec()
    {
      var nw := GetNetworkId();
      if nw.Raise? {
        return Raise(nw.error);
      }
      r := Bump(PyStr.SplitOn(nw.value, '.'), 1);
    }

    /** `get_last_ip()` */
    method GetLastIp() returns (r: Result<string>)
      requires Valid()
      ensures r == LastIpSpec()
    {
      var bc := GetBroadcast();
      if bc.Raise? {
        return Raise(bc.error);
      }
      r := Bump(PyStr.SplitOn(bc.value, '.'), -1);
    }

    function DetailsSpec(): Result<(string, string, string, string)>
      requires Valid()
    {
      var n, b, f, l := NetworkIdSpec(), BroadcastSpec(), FirstIpSpec(), LastIpSpec();
      if n.Raise? then Raise(n.error)
      else if b.Raise? then Raise(b.error)
      else if f.Raise? then Raise(f.error)
      else if l.Raise? then Raise(l.error)
      else Ok((n.value, b.value, f.value, l.value))
    }

    /** `get_network_details()` */
    method GetNetworkDetails() returns (r: Result<(string, string, string, string)>)
      requires Valid()
      ensures r == DetailsSpec()
    {
      var n := GetNetworkId();
      if n.Raise? {
        return Raise(n.error);
      }
      var b := GetBroadcast();
      if b.Raise? {
        return Raise(b.error);
      }
      var f := GetFirstIp();
      if f.Raise? {
        return Raise(f.error);
      }
      var l := GetLastIp();
      if l.Raise? {
        return Raise(l.error);
      }
      r := Ok((n.value, b.value, f.value, l.value));
    }
  }

  /** `SubnetCalculator(ip_adres, prefix)`: a malformed octet raises ValueError. */
  function New(ipAdres: string, prefix: int): (r: Result<SubnetCalculator>)
    ensures r.Ok? <==> Octets(ipAdres).Ok?
    ensures r.Ok? ==>
              && r.value.Valid() && r.value.ipAdres == ipAdres && r.value.prefix == prefix
              && r.value.oktetler == Octets(ipAdres).value && r.value.nwCount == prefix / 8
  {
    match Octets(ipAdres)
    case Raise(e) => Raise(e)
    case Ok(os) =>
      Ok(SubnetCalculator(ipAdres, prefix, os, 255 - (255 - (PyStr.Pow2(8 - prefix % 8) - 1)), prefix / 8))
  }

  /** The specification of the last-octet step of `get_first_ip` and `get_last_ip`, on the
      pieces of the split address: the last piece read as an integer and moved by `d`. */
  function Bump(parts: seq<string>, d: int): Result<string>
    requires |parts| >= 1
  {
    var v := PyStr.ParseInt(parts[|parts| - 1]);
    if v.Raise? then Raise(v.error)
    else Ok(DotJoin(parts[|parts| - 1 := PyStr.IntToStr(v.value + d)]))
  }

  /** An address that was computed, with its last octet moved by `d`; an earlier error passes
      through. */
  function BumpAddress(a: Result<string>, d: int): Result<string>
  {
    match a
    case Raise(e) => Raise(e)
    case Ok(s) => Bump(PyStr.SplitOn(s, '.'), d)
  }

  /** Pieces whose last one reads as `v` bump to the pieces with `v + d` written last. */
  lemma BumpRead(parts: seq<string>, v: int, d: int)
    requires |parts| >= 1 && PyStr.ParseInt(parts[|parts| - 1]) == Ok(v)
    ensures Bump(parts, d) == Ok(DotJoin(parts[|parts| - 1 := PyStr.IntToStr(v + d)]))
  {
  }

  /** The last string of an address is the string of its last octet. */
  lemma StrsLast(os: seq<int>)
    requires |os| >= 1
    ensures |Strs(os)| == |os| && Strs(os)[|Strs(os)| - 1] == PyStr.IntToStr(os[|os| - 1])
  {
  }

  /** Writing the last octet anew in the strings of an address gives the strings of the
      address with its last octet replaced. */
  lemma StrsUpdateLast(os: seq<int>, w: int)
    requires |os| >= 1
    ensures Strs(os)[|Strs(os)| - 1 := PyStr.IntToStr(w)] == Strs(os[|os| - 1 := w])
  {
  }

  /** Moving the last octet of the pieces of an address by `d` changes only that octet. */
  lemma BumpStrs(os: seq<int>, d: int)
    requires |os| >= 1
    ensures Bump(Strs(os), d) == Ok(Dotted(os[|os| - 1 := os[|os| - 1] + d]))
  {
    var xs := Strs(os);
    StrsLast(os);
    PyStr.ParseIntAt(xs[|xs| - 1], os[|os| - 1]);
    BumpRead(xs, os[|os| - 1], d);
    StrsUpdateLast(os, os[|os| - 1] + d);
  }

  /** Moving the last octet of a dotted address by `d` changes only that octet. */
  lemma BumpDotted(os: seq<int>, d: int)
    requires |os| >= 1
    ensures Bump(PyStr.SplitOn(Dotted(os), '.'), d) == Ok(Dotted(os[|os| - 1 := os[|os| - 1] + d]))
  {
    DottedSplit(os);
    BumpStrs(os, d);
  }

  /** A four-octet address with its last octet moved by `d`. */
  function MoveLast(os: seq<int>, d: int): (r: seq<int>)
    requires |os| == 4
    ensures |r| == 4 && r[..3] == os[..3]
  {
    os[3 := os[3] + d]
  }

  /** In a four-octet address the last octet is octet 3. */
  lemma LastOfFour(os: seq<int>, d: int)
    requires |os| == 4
    ensures os[|os| - 1 := os[|os| - 1] + d] == MoveLast(os, d)
  {
  }

  /** `BumpDotted` for an answer known to be a four-octet dotted address. */
  lemma BumpAddressAt(a: Result<string>, os: seq<int>, d: int)
    requires |os| == 4 && a == Ok(Dotted(os))
    ensures BumpAddress(a, d) == Ok(Dotted(MoveLast(os, d)))
  {
    BumpDotted(os, d);
    LastOfFour(os, d);
  }

  // ---------------------------------------------------------------- what the answers mean

  /** The block the search stops at is the octet with its host bits cleared, and the block's
      last value is the octet with its host bits set. */
  lemma BlockBits(c: SubnetCalculator, o: int)
    requires c.Valid() && 0 <= c.nwCount <= 3 && 0 <= o
    ensures c.BlockOf(o) == ClearLow(o, HostBitsIn(c.prefix, c.nwCount))
    ensures c.BlockOf(o) + c.x == SetLow(o, HostBitsIn(c.prefix, c.nwCount))
  {
    assert HostBitsIn(c.prefix, c.nwCount) == 8 - (c.prefix - 8 * c.nwCount);
  }

  /** Octets wholly inside the host part clear to 0 and set to 255. */
  lemma HostOctet(o: int, p: int, j: int)
    requires 0 <= o <= 255 && p <= 8 * j
    ensures ClearLow(o, HostBitsIn(p, j)) == 0 && SetLow(o, HostBitsIn(p, j)) == 255
  {
    Pow2Bytes();
    assert HostBitsIn(p, j) == 8;
    PyStr.DivModUnique(o, 256, 0, o);
  }

  /** A sequence that agrees with `head` below `n`, holds `mid` at `n` and `v` above it is
      `head`, then `mid`, then copies of `v`. */
  lemma Spliced(r: seq<int>, head: seq<int>, n: nat, mid: int, v: int, m: nat)
    requires n == |head| && |r| == n + 1 + m
    requires forall j :: 0 <= j < n ==> r[j] == head[j]
    requires r[n] == mid
    requires forall j :: n < j < |r| ==> r[j] == v
    ensures r == head + [mid] + Fill(v, m)
  {
    var s := head + [mid] + Fill(v, m);
    forall j | 0 <= j < |r|
      ensures r[j] == s[j]
    {
      if j > n { assert s[j] == Fill(v, m)[j - n - 1]; }
    }
  }

  /** The intended network address keeps the octets before octet `nw`, clears octet `nw` to
      the start of its block and zeroes the octets after it. */
  lemma NetShape(c: SubnetCalculator)
    requires c.Valid() && 0 <= c.prefix <= 31 && IsAddress(c.oktetler)
    ensures 0 <= c.nwCount <= 3
    ensures var os, nw := c.oktetler, c.nwCount;
      NetOctets(os, c.prefix) == os[..nw] + [c.BlockOf(os[nw])] + Fill(0, 4 - nw - 1)
  {
    var os, p, nw := c.oktetler, c.prefix, c.nwCount;
    var r := NetOctets(os, p);
    assert 0 <= nw <= 3;
    forall j | 0 <= j < nw
      ensures r[j] == os[..nw][j]
    {
      assert HostBitsIn(p, j) == 0;
    }
    assert r[nw] == c.BlockOf(os[nw]) by { BlockBits(c, os[nw]); }
    forall j | nw < j < |r|
      ensures r[j] == 0
    {
      HostOctet(os[j], p, j);
    }
    Spliced(r, os[..nw], nw, c.BlockOf(os[nw]), 0, 4 - nw - 1);
  }

  /** The intended broadcast address keeps the octets before octet `nw`, sets octet `nw` to
      the end of its block and fills the octets after it with 255. */
  lemma BroadcastShape(c: SubnetCalculator)
    requires c.Valid() && 0 <= c.prefix <= 31 && IsAddress(c.oktetler)
    ensures 0 <= c.nwCount <= 3
    ensures var os, nw := c.oktetler, c.nwCount;
      BroadcastOctets(os, c.prefix) == os[..nw] + [c.BlockOf(os[nw]) + c.x] + Fill(255, 4 - nw - 1)
  {
    var os, p, nw := c.oktetler, c.prefix, c.nwCount;
    var r := BroadcastOctets(os, p);
    assert 0 <= nw <= 3;
    forall j | 0 <= j < nw
      ensures r[j] == os[..nw][j]
    {
      assert HostBitsIn(p, j) == 0;
    }
    assert r[nw] == c.BlockOf(os[nw]) + c.x by { BlockBits(c, os[nw]); }
    forall j | nw < j < |r|
      ensures r[j] == 255
    {
      HostOctet(os[j], p, j);
    }
    Spliced(r, os[..nw], nw, c.BlockOf(os[nw]) + c.x, 255, 4 - nw - 1);
  }

  lemma DotText0()
    ensures ['.'] + PyStr.IntToStr(0) == ".0"
  {
    assert PyStr.IntToStr(0) == "0";
  }

  lemma DotText255()
    ensures ['.'] + PyStr.IntToStr(255) == ".255"
  {
    assert PyStr.IntToStr(255) == "255";
  }

  /** For a four-octet address and a prefix below 32, the octet the calculator looks at is
      octet `nwCount`, after the `nwCount` octets it copies. */
  lemma LookedAt(c: SubnetCalculator)
    requires c.Valid() && 0 <= c.prefix <= 31 && IsAddress(c.oktetler)
    ensures 0 <= c.nwCount <= 3
    ensures c.Octet() == Ok(c.oktetler[c.nwCount]) && c.Head() == c.oktetler[..c.nwCount]
  {
  }

  /** For a four-octet address and a prefix below 32, the network address clears every host
      bit. */
  lemma NetworkMeaning(c: SubnetCalculator)
    requires c.Valid() && 0 <= c.prefix <= 31 && IsAddress(c.oktetler)
    ensures c.NetworkIdSpec() == Ok(Dotted(NetOctets(c.oktetler, c.prefix)))
  {
    NetShape(c);
    LookedAt(c);
    var os, nw := c.oktetler, c.nwCount;
    DottedFillAt(NetOctets(os, c.prefix), os[..nw], c.BlockOf(os[nw]), 4 - nw - 1, 0);
    DotText0();
  }

  /** For a four-octet address and a prefix below 32, the broadcast address sets every host
      bit. */
  lemma BroadcastMeaning(c: SubnetCalculator)
    requires c.Valid() && 0 <= c.prefix <= 31 && IsAddress(c.oktetler)
    ensures c.BroadcastSpec() == Ok(Dotted(BroadcastOctets(c.oktetler, c.prefix)))
  {
    BroadcastShape(c);
    LookedAt(c);
    var os, nw := c.oktetler, c.nwCount;
    DottedFillAt(BroadcastOctets(os, c.prefix), os[..nw], c.BlockOf(os[nw]) + c.x, 4 - nw - 1, 255);
    DotText255();
  }

  /** The first usable address is the network address with its last octet one higher. */
  lemma FirstIpMeaning(c: SubnetCalculator)
    requires c.Valid() && 0 <= c.prefix <= 31 && IsAddress(c.oktetler)
    ensures var net := NetOctets(c.oktetler, c.prefix);
      c.FirstIpSpec() == Ok(Dotted(MoveLast(net, 1)))
  {
    var net := NetOctets(c.oktetler, c.prefix);
    NetworkMeaning(c);
    BumpAddressAt(c.NetworkIdSpec(), net, 1);
  }

  /** The last usable address is the broadcast address with its last octet one lower. */
  lemma LastIpMeaning(c: SubnetCalculator)
    requires c.Valid() && 0 <= c.prefix <= 31 && IsAddress(c.oktetler)
    ensures var bc := BroadcastOctets(c.oktetler, c.prefix);
      c.LastIpSpec() == Ok(Dotted(MoveLast(bc, -1)))
  {
    BroadcastMeaning(c);
    BumpAddressAt(c.BroadcastSpec(), BroadcastOctets(c.oktetler, c.prefix), -1);
  }

  /** `get_network_details` reports the network, broadcast, first and last addresses. */
  lemma DetailsMeaning(c: SubnetCalculator)
    requires c.Valid() && 0 <= c.prefix <= 31 && IsAddress(c.oktetler)
    ensures var net, bc := NetOctets(c.oktetler, c.prefix), BroadcastOctets(c.oktetler, c.prefix);
      c.DetailsSpec() == Ok((Dotted(net), Dotted(bc), Dotted(MoveLast(net, 1)), Dotted(MoveLast(bc, -1))))
  {
    NetworkMeaning(c);
    BroadcastMeaning(c);
    FirstIpMeaning(c);
    LastIpMeaning(c);
  }

  /** Past prefix 32 the maximum host count is a float: prefix 33 gives -1.5, prefix 34 -1.75. */
  lemma MaxHostsPast32(c: SubnetCalculator)
    requires c.prefix == 33 || c.prefix == 34
    ensures c.GetMaxHosts() == if c.prefix == 33 then PyFloat(-3, 2) else PyFloat(-7, 4)
  {
    assert PyStr.Pow2(1) == 2;
    if c.prefix == 34 {
      assert PyStr.Pow2(2) == 4;
    }
  }

  /** The usable range from the first to the last address holds exactly `get_max_hosts()`
      addresses. */
  lemma UsableRange(c: SubnetCalculator)
    requires c.Valid() && 0 <= c.prefix <= 31 && IsAddress(c.oktetler)
    ensures var net, bc := NetOctets(c.oktetler, c.prefix), BroadcastOctets(c.oktetler, c.prefix);
      c.GetMaxHosts().PyInt? && Number(MoveLast(bc, -1)) - Number(MoveLast(net, 1)) + 1 == c.GetMaxHosts().i
  {
    var os, p := c.oktetler, c.prefix;
    NumberMoveLast(BroadcastOctets(os, p), -1);
    NumberMoveLast(NetOctets(os, p), 1);
    NumberSpan(os, p);
    HostSpan(p);
  }

  /** Moving the last octet by `d` moves the address's number by `d`. */
  lemma NumberMoveLast(os: seq<int>, d: int)
    requires |os| == 4
    ensures Number(MoveLast(os, d)) == Number(os) + d
  {
  }

  /** The broadcast address lies `HostNumber(p)` above the network address. */
  lemma NumberSpan(os: seq<int>, p: int)
    requires IsAddress(os)
    ensures Number(BroadcastOctets(os, p)) - Number(NetOctets(os, p)) == HostNumber(p)
  {
    var net, bc := NetOctets(os, p), BroadcastOctets(os, p);
    forall k | 0 <= k < 4
      ensures bc[k] - net[k] == PyStr.Pow2(HostBitsIn(p, k)) - 1
    {
    }
  }

  /** `"255." * q` is the run of `q` full octets that `Lead` writes. */
  lemma FullOctets(q: nat)
    ensures PyStr.Repeat("255.", q) == Lead(Strs(Fill(255, q)))
  {
    assert PyStr.IntToStr(255) == "255";
    assert "255." == "255" + ['.'];
    assert Strs(Fill(255, q)) == Copies("255", q);
    RepeatLead("255", q);
  }

  /** The corrected mask of a prefix up to 31: full octets, the octet where the prefix ends,
      and zero octets. */
  lemma MaskShape(p: int)
    requires 0 <= p <= 31
    ensures MaskOctets(p) == Fill(255, p / 8) + [255 - (PyStr.Pow2(8 - p % 8) - 1)] + Fill(0, 4 - p / 8 - 1)
  {
    Pow2Bytes();
    var q := p / 8;
    assert HostBitsIn(p, q) == 8 - p % 8;
  }

  /** The text of a prefix up to 31, read as the pieces `Dotted` writes. */
  lemma MaskTextParts(p: int)
    requires 0 <= p <= 31
    ensures MaskText(p) == Lead(Strs(Fill(255, p / 8))) + PyStr.IntToStr(255 - (PyStr.Pow2(8 - p % 8) - 1))
      + PyStr.Repeat(['.'] + PyStr.IntToStr(0), 4 - p / 8 - 1)
  {
    var q, mid, m := p / 8, PyStr.IntToStr(255 - (PyStr.Pow2(8 - p % 8) - 1)), 4 - p / 8 - 1;
    FullOctets(q);
    DotText0();
    assert MaskText(p) == PyStr.Repeat("255.", q) + mid + PyStr.Repeat(".0", m);
  }

  /** The corrected mask of a prefix up to 31, as the same pieces. */
  lemma MaskParts(p: int)
    requires 0 <= p <= 31
    ensures Mask(p) == Lead(Strs(Fill(255, p / 8))) + PyStr.IntToStr(255 - (PyStr.Pow2(8 - p % 8) - 1))
      + PyStr.Repeat(['.'] + PyStr.IntToStr(0), 4 - p / 8 - 1)
  {
    MaskShape(p);
    DottedFillAt(MaskOctets(p), Fill(255, p / 8), 255 - (PyStr.Pow2(8 - p % 8) - 1), 4 - p / 8 - 1, 0);
  }

  /** Before the strip, the mask text of a prefix up to 31 is the corrected mask. */
  lemma MaskTextBelow32(p: int)
    requires 0 <= p <= 31
    ensures MaskText(p) == Mask(p)
  {
    MaskTextParts(p);
    MaskParts(p);
  }

  /** Before the strip, the mask text of prefix 32 is the full mask and one more octet `0`. */
  lemma MaskText32()
    ensures MaskText(32) == Dotted(Fill(255, 4) + [0])
  {
    Pow2Bytes();
    var full := Fill(255, 4);
    assert Fill(0, 0) == [];
    calc {
      MaskText(32);
      PyStr.Repeat("255.", 4) + PyStr.IntToStr(0) + PyStr.Repeat(".0", 0);
      PyStr.Repeat("255.", 4) + PyStr.IntToStr(0);
      { FullOctets(4); }
      Lead(Strs(full)) + PyStr.IntToStr(0) + PyStr.Repeat(['.'] + PyStr.IntToStr(0), 0);
      { DottedFill(full, 0, 0, 0); }
      Dotted(full + [0] + Fill(0, 0));
      { assert full + [0] + Fill(0, 0) == full + [0]; }
      Dotted(full + [0]);
    }
  }

  /** The prefix-32 mask text is the corrected mask with `.0` appended. */
  lemma Mask32Text()
    ensures MaskText(32) == Mask(32) + ".0"
    ensures |MaskText(32)| >= 1 && MaskText(32)[0] != '.' && MaskText(32)[|MaskText(32)| - 1] != '.'
  {
    MaskText32();
    DottedEnds(Fill(255, 4) + [0]);
    DottedThenZero(Fill(255, 4));
    Mask32Full();
  }

  /** One more octet `0` writes `.0` after a dotted address. */
  lemma DottedThenZero(os: seq<int>)
    requires |os| >= 1
    ensures Dotted(os + [0]) == Dotted(os) + ".0"
  {
    calc {
      Dotted(os + [0]);
      { assert Strs(os + [0]) == Strs(os) + [PyStr.IntToStr(0)]; }
      DotJoin(Strs(os) + [PyStr.IntToStr(0)]);
      { DotSnoc(Strs(os), PyStr.IntToStr(0)); }
      Dotted(os) + (['.'] + PyStr.IntToStr(0));
      { DotText0(); }
      Dotted(os) + ".0";
    }
  }

  lemma Mask32Full()
    ensures MaskOctets(32) == Fill(255, 4)
  {
    Pow2Bytes();
  }

  /** `get_mask()` as written agrees with the corrected mask for prefixes up to 31, and at
      prefix 32 appends a fifth octet `.0`. */
  lemma MaskAsWritten(c: SubnetCalculator)
    requires 0 <= c.prefix <= 32
    ensures c.prefix <= 31 ==> c.GetMask() == Mask(c.prefix)
    ensures c.prefix == 32 ==> c.GetMask() == Mask(32) + ".0"
  {
    var p := c.prefix;
    if p <= 31 {
      MaskTextBelow32(p);
      DottedEnds(MaskOctets(p));
      PyStr.StripUnchanged(MaskText(p), {'.'});
    } else {
      Mask32Text();
      PyStr.StripUnchanged(MaskText(32), {'.'});
    }
  }

  /** A /32 prefix covers all four octets, so the calculator looks for a fifth one and raises
      IndexError. */
  lemma HostRouteRaises(c: SubnetCalculator)
    requires c.Valid() && c.prefix == 32 && |c.oktetler| == 4
    ensures c.NetworkIdSpec() == Raise("IndexError")
    ensures c.DetailsSpec() == Raise("IndexError")
  {
  }
}
