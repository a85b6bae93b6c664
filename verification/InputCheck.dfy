/** `InputParameter::error_checking`: which configurations are accepted, and what later code may
    then rely on. Unsigned 32-bit wrap-around and the conversions to int are written out. */
module InputCheck {
  import opened Arithmetic
  import opened BasicCircuit
  import opened Limits
  import opened PowersOfTwo

  const INT32: nat := 0x8000_0000

  type uint32 = n: int | 0 <= n < 0x1_0000_0000

  type int32 = n: int | -0x8000_0000 <= n < 0x8000_0000

  const LP_DRAM: uint32 := 3
  const COMM_DRAM: uint32 := 4

  /** The members the check only reads. */
  datatype Request = Request(
    accessMode: uint32, isMainMem: bool, icProjType: uint32, lineSz: uint32, outW: uint32, featureSize: real,
    nbanks: uint32, cacheSz: uint32, assoc: uint32, isCache: bool, pureCam: bool,
    dataCell: uint32, tagCell: uint32, dataPeriph: uint32, tagPeriph: uint32, temp: uint32,
    arrayGated: bool, bitlineFloating: bool, wlGated: bool, clGated: bool, interconnectGated: bool)

  /** The port counts, which it may rewrite. */
  datatype Ports = Ports(rw: uint32, rd: uint32, wr: uint32, se: uint32, search: uint32)

  /** The members it derives. */
  datatype Derived = Derived(fastAccess: bool, fullyAssoc: bool, isSeqAcc: bool, blockSz: uint32,
                             tagAssoc: uint32, dataAssoc: uint32, nsets: uint32, powerGating: bool)

  datatype Verdict = Accepted | Rejected | DividesByZero

  function ToInt32(u: uint32): int32 {
    if u < INT32 then u else u - UINT32
  }

  function ToUint32(i: int32): uint32 {
    if i < 0 then i + UINT32 else i
  }

  function FullyAssoc(q: Request): bool {
    q.isCache && q.assoc == 0
  }

  function CamLike(q: Request): bool {
    FullyAssoc(q) || q.pureCam
  }

  /** The size of a bank in the source's int. */
  function BankSize(q: Request): int32
    requires q.nbanks > 0
  {
    ToInt32(q.cacheSz / q.nbanks)
  }

  /** The associativity A the check works with, for a bank of c bytes. */
  function Ways(q: Request, c: int32): int32
    requires q.lineSz > 0
  {
    if q.assoc == 0 then ToInt32(ToUint32(c) / q.lineSz) else ToInt32(q.assoc)
  }

  /** The bytes of a set, B*A, in the source's unsigned arithmetic. */
  function SetBytes(b: uint32, ways: int32): uint32 {
    b * ToUint32(ways) % UINT32
  }

  function NumSets(c: int32, w: uint32): uint32
    requires w > 0
  {
    QuotientAtMost(ToUint32(c), w);
    ToUint32(c) / w
  }

  lemma QuotientAtMost(x: nat, w: nat)
    requires w > 0
    ensures 0 <= x / w <= x
  {
    QuotientBounds(x, w);
    FactorAtMost(x / w, w);
    MulOrder(x / w, -1, w);
  }

  ghost predicate BasicsOk(q: Request, p: Ports, is3d: bool) {
    && (q.isMainMem && q.icProjType == 0 ==> is3d)
    && q.lineSz >= 1 && q.lineSz * 8 % UINT32 >= q.outW
    && 0.0 < q.featureSize <= 0.091
    && (p.rw + p.rd + p.wr) % UINT32 >= 1
    && IsPowerOfTwo(q.nbanks) && q.nbanks > 0
  }

  ghost predicate KindOk(q: Request, p: Ports) {
    && (q.pureCam ==> q.assoc == 0)
    && (q.assoc == 0 ==> q.pureCam || q.isCache)
    && (CamLike(q) ==>
          && q.dataCell == q.tagCell && q.dataPeriph == q.tagPeriph
          && q.dataCell != LP_DRAM && q.dataCell != COMM_DRAM
          && !q.isMainMem && p.search >= 1)
  }

  ghost predicate SetsOk(q: Request, nsets: uint32, is3d: bool) {
    && (nsets <= 1 ==> q.assoc == 0 || is3d)
    && 300 <= q.temp <= 400 && q.temp % 10 == 0
    && (nsets < 1 ==> is3d)
  }

  /** The verdict once the bank size c, the ways a and the set bytes w are known. */
  ghost function JudgeSets(q: Request, c: int32, a: int32, w: uint32, is3d: bool): Verdict {
    if q.assoc > 1 && !IsPowerOfTwo(a) then Rejected
    else if w == 0 then DividesByZero
    else if SetsOk(q, NumSets(c, w), is3d) then Accepted else Rejected
  }

  ghost function Judge(q: Request, p: Ports, is3d: bool): Verdict {
    if !BasicsOk(q, p, is3d) then Rejected
    else
      var c := BankSize(q);
      if (c < 64 && !is3d) || !KindOk(q, p) then Rejected
      else JudgeSets(q, c, Ways(q, c), SetBytes(q.lineSz, Ways(q, c)), is3d)
  }

  ghost function NewPorts(q: Request, p: Ports): Ports {
    Ports(p.rw, if p.rw == 0 && p.rd == 0 && p.search > 0 && CamLike(q) then p.search else p.rd,
          p.wr, p.se, if CamLike(q) then p.search else 0)
  }

  ghost function NewDerived(q: Request, ways: int32, nsets: uint32): Derived {
    Derived(IsFast(q), FullyAssoc(q), q.accessMode == 1, q.lineSz,
            ToUint32(ways), if q.accessMode == 1 || q.assoc == 0 then 1 else ToUint32(ways), nsets,
            q.arrayGated || q.bitlineFloating || q.wlGated || q.clGated || q.interconnectGated)
  }

  ghost predicate SizeOk(q: Request, p: Ports, is3d: bool) {
    BasicsOk(q, p, is3d) && (BankSize(q) >= 64 || is3d)
  }

  ghost predicate TooFewSets(q: Request, nsets: uint32, is3d: bool) {
    nsets <= 1 && q.assoc != 0 && !is3d
  }

  /** The check gets as far as rewriting the members: only the temperature can still reject. */
  ghost predicate Rewrites(q: Request, p: Ports, is3d: bool) {
    && SizeOk(q, p, is3d) && KindOk(q, p)
    && (q.assoc > 1 ==> IsPowerOfTwo(Ways(q, BankSize(q))))
    && var w := SetBytes(q.lineSz, Ways(q, BankSize(q)));
       w > 0 && !TooFewSets(q, NumSets(BankSize(q), w), is3d)
  }

  function IsFast(q: Request): bool {
    q.accessMode != 0 && q.accessMode != 1
  }

  /** The derived members of a configuration with a non-zero set size. */
  ghost function Layout(q: Request): Derived
    requires q.nbanks > 0 && q.lineSz > 0 && SetBytes(q.lineSz, Ways(q, BankSize(q))) > 0
  {
    var c := BankSize(q);
    var a := Ways(q, c);
    NewDerived(q, a, NumSets(c, SetBytes(q.lineSz, a)))
  }

  /** The ports a call leaves. */
  ghost function PortsAfter(q: Request, p: Ports, is3d: bool): Ports {
    if Rewrites(q, p, is3d) then NewPorts(q, p) else p
  }

  /** The derived members a call leaves. */
  ghost function DerivedAfter(q: Request, p: Ports, d: Derived, is3d: bool): Derived {
    if Judge(q, p, is3d) == Accepted then Layout(q)
    else if Rewrites(q, p, is3d) then Layout(q).(powerGating := d.powerGating)
    else d.(fastAccess := IsFast(q), fullyAssoc := if SizeOk(q, p, is3d) then FullyAssoc(q) else d.fullyAssoc)
  }

  method CheckBasics(q: Request, p: Ports, is3d: bool) returns (ok: bool)
    ensures ok == BasicsOk(q, p, is3d)
  {
    if q.isMainMem {
      if q.icProjType == 0 && !is3d {
        return false;
      }
    }
    var b := q.lineSz;
    if b < 1 {
      return false;
    } else if b * 8 % UINT32 < q.outW {
      return false;
    }
    if q.featureSize <= 0.0 {
      return false;
    } else if q.featureSize > 0.091 {
      return false;
    }
    if (p.rw + p.rd + p.wr) % UINT32 < 1 {
      return false;
    }
    ok := IsPow2(q.nbanks);
  }

  method CheckKind(q: Request, p: Ports, fullyAssoc: bool) returns (ok: bool)
    requires fullyAssoc == FullyAssoc(q)
    ensures ok == KindOk(q, p)
  {
    if q.pureCam && q.assoc != 0 {
      return false;
    }
    if q.assoc == 0 && !q.pureCam && !q.isCache {
      return false;
    }
    var cam := fullyAssoc || q.pureCam;
    if cam && (q.dataCell != q.tagCell || q.dataPeriph != q.tagPeriph) {
      return false;
    }
    if cam && (q.dataCell == LP_DRAM || q.dataCell == COMM_DRAM) {
      return false;
    }
    if cam && q.isMainMem {
      return false;
    }
    if cam && p.search < 1 {
      return false;
    }
    return true;
  }

  method Associativity(q: Request, c: int32) returns (ok: bool, a: int32)
    requires q.lineSz > 0
    ensures ok <==> (q.assoc > 1 ==> IsPowerOfTwo(Ways(q, c)))
    ensures a == Ways(q, c)
  {
    ok := true;
    if q.assoc == 0 {
      a := ToInt32(ToUint32(c) / q.lineSz);
    } else if q.assoc == 1 {
      a := 1;
    } else {
      a := ToInt32(q.assoc);
      ok := IsPow2(a);
    }
  }

  method SetWays(q: Request, a: int32, before: Derived) returns (d: Derived)
    ensures d == before.(blockSz := q.lineSz, tagAssoc := ToUint32(a), isSeqAcc := q.accessMode == 1,
                         dataAssoc := if q.accessMode == 1 || q.assoc == 0 then 1 else ToUint32(a))
  {
    d := before.(blockSz := q.lineSz, tagAssoc := ToUint32(a), dataAssoc := ToUint32(a), isSeqAcc := false);
    if q.accessMode == 1 {
      d := d.(dataAssoc := 1, isSeqAcc := true);
    }
    if q.assoc == 0 {
      d := d.(dataAssoc := 1);
    }
  }

  class InputParameter {
    var request: Request
    var ports: Ports
    var derived: Derived

    constructor (request: Request, ports: Ports, derived: Derived)
      ensures this.request == request && this.ports == ports && this.derived == derived
    {
      this.request, this.ports, this.derived := request, ports, derived;
    }

    /** `error_checking`; is3d is the global 3D-memory switch. */
    method ErrorChecking(is3d: bool) returns (verdict: Verdict)
      modifies this`ports, this`derived
      ensures verdict == Judge(request, old(ports), is3d)
      ensures ports == PortsAfter(request, old(ports), is3d)
      ensures derived == DerivedAfter(request, old(ports), old(derived), is3d)
    {
      var ok, c := CheckSize(is3d);
      if !ok {
        return Rejected;
      }
      var q, p := request, ports;
      ok := CheckKind(q, p, derived.fullyAssoc);
      if !ok {
        return Rejected;
      }
      var cam := derived.fullyAssoc || q.pureCam;
      if p.rw == 0 && p.rd == 0 && p.search > 0 && cam {
        p := p.(rd := p.search);
      }
      var a;
      ok, a := Associativity(q, c);
      if !ok {
        return Rejected;
      }
      verdict := FinishChecking(q, p, cam, c, a, SetBytes(q.lineSz, a), is3d);
    }

    /** The first part: everything up to the size of a bank. */
    method CheckSize(is3d: bool) returns (ok: bool, c: int32)
      modifies this`derived
      ensures ok == SizeOk(request, ports, is3d) && (ok ==> c == BankSize(request))
      ensures derived == old(derived).(fastAccess := IsFast(request),
                                       fullyAssoc := if ok then FullyAssoc(request) else old(derived).fullyAssoc)
    {
      var q := request;
      derived := derived.(fastAccess := IsFast(q));
      ok := CheckBasics(q, ports, is3d);
      if !ok {
        return false, 0;
      }
      c := BankSize(q);
      if c < 64 && !is3d {
        return false, 0;
      }
      derived := derived.(fullyAssoc := q.isCache && q.assoc == 0);
    }

    /** The second half: associativity, number of sets, and the derived members. */
    method FinishChecking(q: Request, p: Ports, cam: bool, c: int32, a: int32, w: uint32, is3d: bool) returns (verdict: Verdict)
      requires q.assoc > 1 ==> IsPowerOfTwo(a)
      modifies this`ports, this`derived
      ensures verdict == JudgeSets(q, c, a, w, is3d)
      ensures verdict != Accepted && (w == 0 || TooFewSets(q, NumSets(c, w), is3d)) ==> ports == old(ports) && derived == old(derived)
      ensures verdict != Accepted && w > 0 && !TooFewSets(q, NumSets(c, w), is3d) ==>
                && ports == (if cam then p else p.(search := 0))
                && derived == NewDerived(q, a, NumSets(c, w))
                                .(fastAccess := old(derived).fastAccess, fullyAssoc := old(derived).fullyAssoc,
                                  powerGating := old(derived).powerGating)
      ensures verdict == Accepted ==>
                && ports == (if cam then p else p.(search := 0))
                && derived == NewDerived(q, a, NumSets(c, w))
                                .(fastAccess := old(derived).fastAccess, fullyAssoc := old(derived).fullyAssoc)
    {
      if w == 0 {
        return DividesByZero;
      }
      var nsets := NumSets(c, w);
      if nsets <= 1 && q.assoc != 0 && !is3d {
        return Rejected;
      }
      verdict := WriteMembers(q, p, cam, a, nsets, is3d);
    }

    /** The members are written, and then the temperature is looked at. */
    method WriteMembers(q: Request, p: Ports, cam: bool, a: int32, nsets: uint32, is3d: bool) returns (verdict: Verdict)
      requires !TooFewSets(q, nsets, is3d)
      modifies this`ports, this`derived
      ensures verdict == if SetsOk(q, nsets, is3d) then Accepted else Rejected
      ensures ports == if cam then p else p.(search := 0)
      ensures var d := NewDerived(q, a, nsets).(fastAccess := old(derived).fastAccess, fullyAssoc := old(derived).fullyAssoc);
              derived == if verdict == Accepted then d else d.(powerGating := old(derived).powerGating)
    {
      var d := SetWays(q, a, derived);
      ports := if cam then p else p.(search := 0);
      derived := d.(nsets := nsets);
      if q.temp < 300 || q.temp > 400 || q.temp % 10 != 0 {
        return Rejected;
      }
      if nsets < 1 && !is3d {
        return Rejected;
      }
      derived := derived.(powerGating := q.arrayGated || q.bitlineFloating || q.wlGated || q.clGated || q.interconnectGated);
      return Accepted;
    }
  }

  // ----- what acceptance means -----

  lemma AcceptedRewrites(q: Request, p: Ports, is3d: bool)
    requires Judge(q, p, is3d) == Accepted
    ensures Rewrites(q, p, is3d)
  {}

  /** A second call on an accepted configuration changes no member, and accepts again unless the read
      ports taken over from the search ports wrap the port count around to zero. */
  lemma SecondCall(q: Request, p: Ports, d: Derived, is3d: bool)
    requires Judge(q, p, is3d) == Accepted
    ensures var p1, d1 := PortsAfter(q, p, is3d), DerivedAfter(q, p, d, is3d);
            PortsAfter(q, p1, is3d) == p1 && DerivedAfter(q, p1, d1, is3d) == d1
    ensures Judge(q, PortsAfter(q, p, is3d), is3d) == Accepted <==>
              !(CamLike(q) && p.rw == 0 && p.rd == 0 && p.search + p.wr == UINT32)
  {
    AcceptedRewrites(q, p, is3d);
    var p1 := NewPorts(q, p);
    PortSum(p.rw, p1.rd, p.wr);
    assert NewPorts(q, p1) == p1;
    if BasicsOk(q, p1, is3d) {
      SamePortsJudge(q, p, p1, is3d);
      AcceptedRewrites(q, p1, is3d);
    }
  }

  /** Beyond the port count, the verdict depends on the ports only through the search ports of a CAM. */
  lemma SamePortsJudge(q: Request, p: Ports, p1: Ports, is3d: bool)
    requires BasicsOk(q, p, is3d) && BasicsOk(q, p1, is3d) && (CamLike(q) ==> p.search == p1.search)
    ensures Judge(q, p, is3d) == Judge(q, p1, is3d)
  {}

  lemma PortSum(rw: uint32, rd: uint32, wr: uint32)
    ensures rw == 0 ==> ((rw + rd + wr) % UINT32 >= 1 <==> rd + wr > 0 && rd + wr != UINT32)
  {}

  /** What the verdict says of a set-associative request, read off its branches. */
  lemma AcceptedBranches(q: Request, p: Ports)
    requires Judge(q, p, false) == Accepted && q.assoc != 0
    ensures BasicsOk(q, p, false) && BankSize(q) >= 64 && Ways(q, BankSize(q)) == ToInt32(q.assoc)
    ensures q.assoc > 1 ==> IsPowerOfTwo(ToInt32(q.assoc))
    ensures var w := SetBytes(q.lineSz, ToInt32(q.assoc)); w > 0 && NumSets(BankSize(q), w) > 1
  {}

  lemma PositiveWays(assoc: uint32)
    requires assoc >= 1 && (assoc > 1 ==> IsPowerOfTwo(ToInt32(assoc)))
    ensures IsPowerOfTwo(assoc) && ToInt32(assoc) == assoc
  {
    assert Pow2(0) == 1;
  }

  lemma PositiveBank(q: Request)
    requires q.nbanks > 0 && BankSize(q) >= 0
    ensures BankSize(q) == q.cacheSz / q.nbanks
  {
    QuotientAtMost(q.cacheSz, q.nbanks);
  }

  lemma SetsOfBank(c: int32, w: uint32)
    requires c >= 0 && w > 0
    ensures NumSets(c, w) == c / w
  {}

  /** An accepted set-associative cache has at least two sets, a power-of-two number of ways, and
      banks that are a power of two. */
  lemma AcceptedShape(q: Request, p: Ports)
    requires Judge(q, p, false) == Accepted && q.assoc != 0
    ensures IsPowerOfTwo(q.assoc) && IsPowerOfTwo(q.nbanks) && 64 <= BankSize(q) == q.cacheSz / q.nbanks
    ensures Ways(q, BankSize(q)) == ToInt32(q.assoc) == q.assoc
    ensures var w := SetBytes(q.lineSz, ToInt32(q.assoc)); w > 0 && Layout(q).nsets == BankSize(q) / w >= 2
  {
    AcceptedBranches(q, p);
    PositiveWays(q.assoc);
    PositiveBank(q);
    SetsOfBank(BankSize(q), SetBytes(q.lineSz, ToInt32(q.assoc)));
  }

  /** An ordinary cache, 32 KB in 8 ways of 64-byte lines at 350 K, is accepted with 64 sets. */
  lemma OrdinaryCache(q: Request, p: Ports)
    requires q.cacheSz == 32768 && q.lineSz == 64 && q.assoc == 8 && q.nbanks == 1 && q.isCache && !q.pureCam
    requires !q.isMainMem && q.outW <= 512 && q.featureSize == 0.032 && q.temp == 350 && p == Ports(1, 0, 0, 0, 0)
    ensures Judge(q, p, false) == Accepted && Layout(q).nsets == 64
  {
    assert Pow2(0) == 1 && Pow2(3) == 8;
    assert BankSize(q) == 32768 && Ways(q, 32768) == 8 && SetBytes(64, 8) == 512;
  }

  lemma FloorTwice(cache: nat, nbanks: nat, w: nat, c: nat, nsets: nat, used: nat)
    requires nbanks > 0 && w > 0 && c == cache / nbanks && nsets == c / w && used == nsets * w * nbanks
    ensures used <= cache < used + w * nbanks
  {
    QuotientBounds(cache, nbanks);
    QuotientBounds(c, w);
    MulOrder(nsets * w, c, nbanks);
    MulOrder(c + 1, nsets * w + w, nbanks);
    assert (nsets * w + w) * nbanks == nsets * w * nbanks + w * nbanks;
  }

  lemma SetBytesValue(b: uint32, a: uint32, w: nat)
    requires w == b * a
    ensures SetBytes(b, ToInt32(a)) == w % UINT32
  {}

  lemma MoreThanOnce(w: nat, nsets: nat, nbanks: nat, used: nat)
    requires nsets >= 1 && nbanks >= 1 && used == nsets * w * nbanks
    ensures w <= used
  {
    FactorAtMost(w, nsets);
    MulCommutes(w, nsets);
    FactorAtMost(nsets * w, nbanks);
  }

  lemma FillsUnlessWrapped(cache: nat, nbanks: nat, w: nat, c: nat, nsets: nat, used: nat)
    requires nbanks > 0 && cache < UINT32 && c == cache / nbanks && used == nsets * w * nbanks
    requires w % UINT32 > 0 && nsets == c / (w % UINT32) >= 1
    ensures w < UINT32 <==> used <= cache < used + w * nbanks
  {
    MoreThanOnce(w, nsets, nbanks, used);
    if w < UINT32 {
      FloorTwice(cache, nbanks, w, c, nsets, used);
    }
  }

  lemma AcceptedSets(q: Request, p: Ports, w: nat)
    requires Judge(q, p, false) == Accepted && q.assoc != 0 && w == q.lineSz * q.assoc
    ensures q.nbanks > 0 && BankSize(q) == q.cacheSz / q.nbanks >= 64
    ensures w % UINT32 > 0 && Layout(q).nsets == BankSize(q) / (w % UINT32) >= 2
  {
    AcceptedShape(q, p);
    SetBytesValue(q.lineSz, q.assoc, w);
  }

  /** Its sets fill the cache up to less than one set in each bank if and only if the bytes of a
      set do not overflow 32 bits. */
  lemma SetsFillTheCache(q: Request, p: Ports, w: nat, nsets: nat, used: nat)
    requires Judge(q, p, false) == Accepted && q.assoc != 0
    requires w == q.lineSz * q.assoc && nsets == Layout(q).nsets && used == nsets * w * q.nbanks
    ensures w < UINT32 <==> used <= q.cacheSz < used + w * q.nbanks
  {
    AcceptedSets(q, p, w);
    FillsUnlessWrapped(q.cacheSz, q.nbanks, w, BankSize(q), nsets, used);
  }

  lemma OneSet(c: nat, b: nat, a: nat)
    requires b > 0 && a == c / b
    ensures b * a <= c < b * a + b
    ensures a >= 1 <==> b <= c
    ensures a >= 1 ==> b * a > 0 && c / (b * a) == 1
  {
    QuotientBounds(c, b);
    MulCommutes(a, b);
    PositiveProduct(b, a);
    MulOrder(a, 0, b);
    if a >= 1 {
      FactorAtMost(b, a);
      QuotientUnique(c, b * a, 1);
    }
  }

  /** Lines that fit a size take no more bytes than it, and none fits exactly when it is below a line. */
  lemma CamLines(b: uint32, u: uint32, a: nat)
    requires b > 0 && a == u / b
    ensures 0 <= a <= u && SetBytes(b, ToInt32(a)) == b * a && (b * a == 0 <==> u < b)
  {
    OneSet(u, b, a);
    QuotientAtMost(u, b);
    SetBytesValue(b, a, b * a);
    PositiveProduct(b, a);
  }

  lemma CamSetBytes(q: Request, c: int32, a: int)
    requires q.lineSz > 0 && 64 <= c && q.assoc == 0 && a == c / q.lineSz
    ensures Ways(q, c) == a && 0 <= a < INT32 && SetBytes(q.lineSz, a) == q.lineSz * a
  {
    CamLines(q.lineSz, c, a);
  }

  /** An accepted fully associative cache or CAM has one set: all its lines are ways of it. */
  lemma SingleSet(q: Request, p: Ports, c: int32, a: int)
    requires Judge(q, p, false) == Accepted && q.assoc == 0 && c == BankSize(q) && a == c / q.lineSz
    ensures Layout(q).nsets == 1 && Layout(q).tagAssoc == a >= 1
    ensures q.lineSz * a <= c < q.lineSz * a + q.lineSz
  {
    CamSetBytes(q, c, a);
    OneSet(c, q.lineSz, a);
  }

  lemma WaysPower(assoc: uint32)
    requires assoc >= 1
    ensures (assoc > 1 ==> IsPowerOfTwo(ToInt32(assoc))) <==> IsPowerOfTwo(assoc) && assoc < INT32
  {
    assert Pow2(0) == 1;
  }

  // ----- the check in plain terms -----

  /** The sizes an accepted request is judged by: bytes of a bank, ways, bytes of a set modulo 2^32, and sets. */
  ghost predicate Sizes(q: Request, c: uint32, ways: uint32, w: uint32, sets: uint32) {
    && q.nbanks > 0 && q.lineSz > 0
    && c == q.cacheSz / q.nbanks && ways == (if q.assoc == 0 then c / q.lineSz else q.assoc)
    && w == q.lineSz * ways % 0x1_0000_0000 && sets == (if w == 0 then 0 else c / w)
  }

  lemma SizesAre(q: Request, c: uint32, ways: uint32, w: uint32, sets: uint32)
    requires Sizes(q, c, ways, w, sets)
    ensures ToUint32(BankSize(q)) == c && (BankSize(q) >= 64 <==> 64 <= c < 0x8000_0000)
    ensures ToUint32(Ways(q, BankSize(q))) == ways && SetBytes(q.lineSz, Ways(q, BankSize(q))) == w
    ensures w > 0 ==> NumSets(BankSize(q), w) == sets
  {
    QuotientAtMost(q.cacheSz, q.nbanks);
    QuotientAtMost(c, q.lineSz);
  }

  lemma KindMeans(q: Request, p: Ports)
    ensures KindOk(q, p) <==>
              if q.assoc != 0 then !q.pureCam
              else && (q.pureCam || q.isCache) && q.dataCell == q.tagCell && q.dataPeriph == q.tagPeriph
                   && q.dataCell != 3 && q.dataCell != 4 && !q.isMainMem && p.search >= 1
  {}

  lemma BasicsMean(q: Request, p: Ports, is3d: bool)
    ensures BasicsOk(q, p, is3d) <==>
              && (q.isMainMem && q.icProjType == 0 ==> is3d)
              && q.lineSz >= 1 && q.lineSz * 8 % 0x1_0000_0000 >= q.outW && 0.0 < q.featureSize <= 0.091
              && (p.rw + p.rd + p.wr) % 0x1_0000_0000 >= 1 && IsPowerOfTwo(q.nbanks)
  {}

  lemma SetsMean(q: Request, nsets: uint32, is3d: bool)
    ensures SetsOk(q, nsets, is3d) <==> 300 <= q.temp <= 400 && q.temp % 10 == 0 && (is3d || nsets >= 2 || (q.assoc == 0 && nsets == 1))
  {}

  lemma JudgeBySizes(q: Request, p: Ports, is3d: bool, c: uint32, ways: uint32, w: uint32, sets: uint32)
    requires Sizes(q, c, ways, w, sets)
    ensures Judge(q, p, is3d) == Accepted <==>
              && BasicsOk(q, p, is3d) && (is3d || 64 <= c < 0x8000_0000) && KindOk(q, p)
              && (q.assoc == 0 || (IsPowerOfTwo(q.assoc) && q.assoc < 0x8000_0000))
              && w > 0 && SetsOk(q, sets, is3d)
  {
    SizesAre(q, c, ways, w, sets);
    if q.assoc >= 1 {
      WaysPower(q.assoc);
    }
  }

  /** Exactly the accepted requests, without reference to the steps of the check. */
  lemma AcceptedWhen(q: Request, p: Ports, is3d: bool, c: uint32, ways: uint32, w: uint32, sets: uint32)
    requires Sizes(q, c, ways, w, sets)
    ensures Judge(q, p, is3d) == Accepted <==>
              && (q.isMainMem && q.icProjType == 0 ==> is3d)
              && q.lineSz * 8 % 0x1_0000_0000 >= q.outW && 0.0 < q.featureSize <= 0.091
              && (p.rw + p.rd + p.wr) % 0x1_0000_0000 >= 1 && IsPowerOfTwo(q.nbanks)
              && (is3d || 64 <= c < 0x8000_0000)
              && (if q.assoc != 0 then !q.pureCam && IsPowerOfTwo(q.assoc) && q.assoc < 0x8000_0000
                  else && (q.pureCam || q.isCache) && q.dataCell == q.tagCell && q.dataPeriph == q.tagPeriph
                       && q.dataCell != 3 && q.dataCell != 4 && !q.isMainMem && p.search >= 1)
              && 300 <= q.temp <= 400 && q.temp % 10 == 0
              && w > 0 && (is3d || sets >= 2 || (q.assoc == 0 && sets == 1))
  {
    JudgeBySizes(q, p, is3d, c, ways, w, sets);
    BasicsMean(q, p, is3d);
    KindMeans(q, p);
    SetsMean(q, sets, is3d);
  }

  lemma NeverAccepted(q: Request, p: Ports, is3d: bool)
    requires q.nbanks == 0 || q.lineSz == 0
    ensures Judge(q, p, is3d) == Rejected
  {}

  /** The members an accepted call leaves. */
  lemma AcceptedMembers(q: Request, p: Ports, d: Derived, is3d: bool, c: uint32, ways: uint32, w: uint32, sets: uint32)
    requires Judge(q, p, is3d) == Accepted && Sizes(q, c, ways, w, sets)
    ensures var e := DerivedAfter(q, p, d, is3d);
            && (q.accessMode == 0 ==> !e.fastAccess && !e.isSeqAcc)
            && (q.accessMode == 1 ==> !e.fastAccess && e.isSeqAcc)
            && (q.accessMode >= 2 ==> e.fastAccess && !e.isSeqAcc)
            && e.tagAssoc == ways && e.dataAssoc == (if q.accessMode == 1 || q.assoc == 0 then 1 else ways)
            && w > 0 && e.nsets == sets && e.blockSz == q.lineSz
            && (e.fullyAssoc <==> q.isCache && q.assoc == 0)
            && (e.powerGating <==> q.arrayGated || q.bitlineFloating || q.wlGated || q.clGated || q.interconnectGated)
    ensures PortsAfter(q, p, is3d) ==
              if q.assoc == 0 then p.(rd := if p.rw == 0 && p.rd == 0 then p.search else p.rd) else p.(search := 0)
  {
    SizesAre(q, c, ways, w, sets);
    AcceptedRewrites(q, p, is3d);
    KindMeans(q, p);
  }

  lemma RewritesBySizes(q: Request, p: Ports, is3d: bool, c: uint32, ways: uint32, w: uint32, sets: uint32)
    requires Sizes(q, c, ways, w, sets)
    ensures Rewrites(q, p, is3d) <==>
              && BasicsOk(q, p, is3d) && (is3d || 64 <= c < 0x8000_0000) && KindOk(q, p)
              && (q.assoc == 0 || (IsPowerOfTwo(q.assoc) && q.assoc < 0x8000_0000))
              && w > 0 && (is3d || q.assoc == 0 || sets >= 2)
  {
    SizesAre(q, c, ways, w, sets);
    if q.assoc >= 1 {
      WaysPower(q.assoc);
    }
  }

  lemma CamSets(q: Request, c: uint32, ways: uint32, w: uint32, sets: uint32)
    requires Sizes(q, c, ways, w, sets) && q.assoc == 0 && w > 0
    ensures sets == 1
  {
    QuotientAtMost(q.cacheSz, q.nbanks);
    CamLines(q.lineSz, c, ways);
    SizesAre(q, c, ways, w, sets);
    OneSet(c, q.lineSz, ways);
  }

  /** Once the members are rewritten only the temperature can still reject. */
  lemma SameButTemperature(q: Request, p: Ports, is3d: bool, legal: Request)
    requires legal == q.(temp := 300)
    ensures Rewrites(q, p, is3d) <==> Judge(legal, p, is3d) == Accepted
  {
    BasicsMean(q, p, is3d);
    BasicsMean(legal, p, is3d);
    KindMeans(q, p);
    KindMeans(legal, p);
    if q.nbanks > 0 && q.lineSz > 0 {
      var c := q.cacheSz / q.nbanks;
      QuotientAtMost(q.cacheSz, q.nbanks);
      QuotientAtMost(c, q.lineSz);
      var ways: nat := if q.assoc == 0 then c / q.lineSz else q.assoc;
      var w: nat := q.lineSz * ways % 0x1_0000_0000;
      if w > 0 {
        QuotientAtMost(c, w);
      }
      BySizes(q, p, is3d, legal, c, ways, w, if w == 0 then 0 else c / w);
    } else {
      NeverAccepted(legal, p, is3d);
      assert !BasicsOk(q, p, is3d);
    }
  }

  lemma BySizes(q: Request, p: Ports, is3d: bool, legal: Request, c: uint32, ways: uint32, w: uint32, sets: uint32)
    requires legal == q.(temp := 300) && Sizes(q, c, ways, w, sets)
    requires (BasicsOk(q, p, is3d) <==> BasicsOk(legal, p, is3d)) && (KindOk(q, p) <==> KindOk(legal, p))
    ensures Rewrites(q, p, is3d) <==> Judge(legal, p, is3d) == Accepted
  {
    RewritesBySizes(q, p, is3d, c, ways, w, sets);
    JudgeBySizes(legal, p, is3d, c, ways, w, sets);
    SetsMean(legal, sets, is3d);
    if w > 0 && q.assoc == 0 {
      CamSets(q, c, ways, w, sets);
    }
  }

  lemma SameLayout(q: Request, p: Ports, is3d: bool, legal: Request)
    requires legal == q.(temp := 300) && Rewrites(q, p, is3d)
    ensures Rewrites(legal, p, is3d) && Layout(q) == Layout(legal) && NewPorts(q, p) == NewPorts(legal, p)
  {}

  /** The members a rejected or failing call leaves: with a legal temperature in place of the request's the
      call is either accepted, and then only the power gating differs, or it has touched two switches, the
      second one only after the sizes are found legal. */
  lemma RejectedMembers(q: Request, p: Ports, d: Derived, is3d: bool)
    requires Judge(q, p, is3d) != Accepted
    ensures var legal, e := q.(temp := 300), DerivedAfter(q, p, d, is3d);
            && (e.fastAccess <==> q.accessMode >= 2) && e.powerGating == d.powerGating
            && if Judge(legal, p, is3d) == Accepted
               then && PortsAfter(q, p, is3d) == PortsAfter(legal, p, is3d)
                    && e == DerivedAfter(legal, p, d, is3d).(powerGating := d.powerGating)
               else && PortsAfter(q, p, is3d) == p
                    && e == d.(fastAccess := e.fastAccess, fullyAssoc := e.fullyAssoc)
                    && (e.fullyAssoc <==> if SizeOk(q, p, is3d) then q.isCache && q.assoc == 0 else d.fullyAssoc)
  {
    var legal := q.(temp := 300);
    SameButTemperature(q, p, is3d, legal);
    if Judge(legal, p, is3d) == Accepted {
      SameLayout(q, p, is3d, legal);
    }
  }

  lemma DividesWhen(q: Request, p: Ports, is3d: bool)
    ensures Judge(q, p, is3d) == DividesByZero <==>
              && SizeOk(q, p, is3d) && KindOk(q, p)
              && (q.assoc > 1 ==> IsPowerOfTwo(Ways(q, BankSize(q)))) && SetBytes(q.lineSz, Ways(q, BankSize(q))) == 0
  {}

  lemma EmptyCam(q: Request, c: int32)
    requires q.lineSz > 0 && q.assoc == 0
    ensures SetBytes(q.lineSz, Ways(q, c)) == 0 <==> ToUint32(c) < q.lineSz
  {
    CamLines(q.lineSz, ToUint32(c), ToUint32(c) / q.lineSz);
  }

  lemma EmptySet(q: Request, c: int32, w: nat)
    requires q.lineSz > 0 && q.assoc > 0 && w == q.lineSz * q.assoc
    ensures Ways(q, c) == ToInt32(q.assoc) && SetBytes(q.lineSz, Ways(q, c)) == w % UINT32
  {
    SetBytesValue(q.lineSz, q.assoc, w);
  }

  /** The check divides by zero exactly on well-formed requests that are fully associative and smaller
      than one line, or set-associative with sets whose bytes are a multiple of 2^32. */
  lemma ZeroDivision(q: Request, p: Ports, is3d: bool, w: nat)
    requires w == q.lineSz * q.assoc
    ensures Judge(q, p, is3d) == DividesByZero <==>
              && SizeOk(q, p, is3d) && KindOk(q, p)
              && if q.assoc == 0 then ToUint32(BankSize(q)) < q.lineSz
                 else IsPowerOfTwo(q.assoc) && q.assoc < INT32 && w % UINT32 == 0
  {
    DividesWhen(q, p, is3d);
    if q.lineSz > 0 && q.nbanks > 0 {
      if q.assoc == 0 {
        EmptyCam(q, BankSize(q));
      } else {
        EmptySet(q, BankSize(q), w);
        WaysPower(q.assoc);
      }
    }
  }

  // ----- requests on which the check fails -----

  /** The members the following requests share; the cells are plain SRAM. */
  ghost predicate Plain(q: Request) {
    && !q.isMainMem && q.outW <= 512 && q.featureSize == 0.032 && q.temp == 350 && q.nbanks == 1
    && q.dataCell == q.tagCell == 0 && q.dataPeriph == q.tagPeriph
  }

  /** An accepted cache of 64 KB whose 1024 sets would take over four terabytes: the bytes of a set are
      64 modulo 2^32. */
  lemma WrappedSets(q: Request, p: Ports)
    requires Plain(q) && q.cacheSz == 65536 && q.lineSz == 0x1000_0004 && q.assoc == 16 && !q.pureCam && p == Ports(1, 0, 0, 0, 0)
    ensures Judge(q, p, false) == Accepted && Layout(q).nsets == 1024
    ensures Layout(q).nsets * (q.lineSz * q.assoc) > q.cacheSz
  {
    assert Pow2(0) == 1 && Pow2(4) == 16;
    assert BankSize(q) == 65536 && Ways(q, 65536) == 16 && SetBytes(0x1000_0004, 16) == 64;
  }

  /** An accepted CAM that a second call rejects: one write port and 2^32 - 1 search ports. */
  lemma SecondCallRejects(q: Request, p: Ports)
    requires Plain(q) && q.cacheSz == 65536 && q.lineSz == 64 && q.assoc == 0 && q.pureCam && p == Ports(0, 0, 1, 0, 0xFFFF_FFFF)
    ensures Judge(q, p, false) == Accepted && Judge(q, PortsAfter(q, p, false), false) == Rejected
  {
    assert Pow2(0) == 1;
    assert BankSize(q) == 65536 && Ways(q, 65536) == 1024 && SetBytes(64, 1024) == 65536;
  }

  /** A fully associative cache of 64 bytes with lines of 128. */
  lemma SmallerThanALine(q: Request, p: Ports)
    requires Plain(q) && q.cacheSz == 64 && q.lineSz == 128 && q.assoc == 0 && q.isCache && !q.pureCam && p == Ports(1, 0, 0, 0, 1)
    ensures Judge(q, p, false) == DividesByZero
  {
    assert Pow2(0) == 1;
    assert BankSize(q) == 64 && Ways(q, 64) == 0 && SetBytes(128, 0) == 0;
  }

  /** A set-associative cache whose sets have 2^32 bytes. */
  lemma VanishingSets(q: Request, p: Ports)
    requires Plain(q) && q.cacheSz == 65536 && q.lineSz == 65536 && q.assoc == 65536 && !q.pureCam && p == Ports(1, 0, 0, 0, 0)
    ensures Judge(q, p, false) == DividesByZero
  {
    assert Pow2(0) == 1 && Pow2(8) == 256;
    Pow2Add(8, 8);
    assert Pow2(16) == 65536;
    assert BankSize(q) == 65536 && Ways(q, 65536) == 65536 && SetBytes(65536, 65536) == 0;
  }
}
