/**
 Instruction dependency traces as text: the printer (gem5/util/decode_inst_dep_trace.py)
 and the parser (gem5/util/encode_inst_dep_trace.py) over the records of
 gem5/src/proto/inst_dep_record.proto.
 */
module InstDepTrace {
  import opened Machine
  import opened Options
  import Sequences
  import opened Strings

  type U32 = x: int | 0 <= x < TWO32
  type U64 = x: int | 0 <= x < TWO64

  // ----- records

  datatype RecordType = INVALID | LOAD | STORE | COMP

  datatype InstDepRecord = InstDepRecord(
    seqNum: U64, pc: Option<U64>, weight: Option<U32>, kind: RecordType,
    pAddr: Option<U64>, size: Option<U32>, flags: Option<U32>,
    compDelay: U64, robDep: seq<U64>, regDep: seq<U64>,
    vAddr: Option<U64>, asid: Option<U32>)
  {
    predicate Memory() {
      kind == LOAD || kind == STORE
    }

    /** The records the text format can carry. */
    predicate Representable() {
      && kind != INVALID
      && (pAddr.Some? <==> Memory()) && (size.Some? <==> Memory()) && (flags.Some? <==> Memory())
      && vAddr.None? && asid.None?
    }

    function Pc(): U64 {
      if pc.Some? then pc.value else 0
    }

    function Weight(): U32 {
      if weight.Some? then weight.value else 1
    }

    /** The record with its defaults written out. */
    function Filled(): InstDepRecord {
      this.(pc := Some(Pc()), weight := Some(Weight()))
    }
  }

  function Name(t: RecordType): string {
    match t
    case INVALID => "INVALID"
    case LOAD => "LOAD"
    case STORE => "STORE"
    case COMP => "COMP"
  }

  // ----- parsed fields

  datatype Why = WrongShape | MissingField | BadNumber | OutOfRange | UnknownType | InvalidType

  datatype Parsed<+T> = Success(value: T) | Fail(why: Why) {
    predicate IsFailure() {
      Fail?
    }

    function PropagateFailure<U>(): Parsed<U>
      requires Fail?
    {
      Fail(why)
    }

    function Extract(): T
      requires Success?
    {
      value
    }
  }

  /** A number assigned to a field of the given range. */
  function Bounded(s: string, isLong: bool, bound: int): (r: Parsed<int>)
    ensures r.Success? ==> 0 <= r.value < bound
  {
    match Number(s, isLong)
    case None => Fail(BadNumber)
    case Some(n) => if 0 <= n < bound then Success(n) else Fail(OutOfRange)
  }

  // ----- the printer

  function Present(x: Option<int>): seq<string>
    requires x.Some? ==> x.value >= 0
  {
    if x.Some? then [Decimal(x.value)] else []
  }

  function Decimals(ns: seq<U64>): (ps: seq<string>)
    ensures |ps| == |ns|
  {
    if ns == [] then [] else [Decimal(ns[0])] + Decimals(ns[1..])
  }

  function HeadFields(r: InstDepRecord): seq<string> {
    [Decimal(r.seqNum), Decimal(r.Pc()), Decimal(r.Weight()), Name(r.kind)]
  }

  function InfoFields(r: InstDepRecord): seq<string> {
    HeadFields(r) + Present(r.pAddr) + Present(r.size) + Present(r.flags) + [Decimal(r.compDelay)]
  }

  /** Dependencies are each preceded by a comma. */
  function DepText(ns: seq<U64>): string {
    Join([""] + Decimals(ns), ',')
  }

  function Body(r: InstDepRecord): string {
    Join([Join(InfoFields(r), ','), DepText(r.robDep), DepText(r.regDep)], ':')
  }

  function Line(r: InstDepRecord): string {
    Body(r) + "\n"
  }

  function Text(rs: seq<InstDepRecord>): string {
    if rs == [] then "" else Line(rs[0]) + Text(rs[1..])
  }

  // ----- the parser

  function KindOf(s: string): Parsed<RecordType> {
    if s == "INVALID" then Success(INVALID)
    else if s == "LOAD" then Success(LOAD)
    else if s == "STORE" then Success(STORE)
    else if s == "COMP" then Success(COMP)
    else Fail(UnknownType)
  }

  function Field(info: seq<string>, i: nat, isLong: bool, bound: int): (r: Parsed<int>)
    ensures r.Success? ==> 0 <= r.value < bound
  {
    if i < |info| then Bounded(info[i], isLong, bound) else Fail(MissingField)
  }

  function Numbers(ps: seq<string>): Parsed<seq<U64>> {
    if ps == [] then Success([])
    else if ps[0] == "" then Numbers(ps[1..])
    else
      var n :- Bounded(ps[0], true, TWO64);
      var rest :- Numbers(ps[1..]);
      Success([n] + rest)
  }

  datatype Request = Request(pAddr: Option<U64>, size: Option<U32>, flags: Option<U32>, compDelay: U64)

  function ParseRequest(kind: RecordType, info: seq<string>): (r: Parsed<Request>)
    ensures var memory := kind == LOAD || kind == STORE; r.Success? ==>
      (r.value.pAddr.Some? <==> memory) && (r.value.size.Some? <==> memory) && (r.value.flags.Some? <==> memory)
  {
    if kind == LOAD || kind == STORE then
      if |info| < 8 then Fail(WrongShape)
      else
        var pAddr :- Field(info, 4, true, TWO64);
        var size :- Field(info, 5, false, TWO32);
        var flags :- Field(info, 6, false, TWO32);
        var compDelay :- Field(info, 7, true, TWO64);
        Success(Request(Some(pAddr), Some(size), Some(flags), compDelay))
    else
      var compDelay :- Field(info, 4, true, TWO64);
      Success(Request(None, None, None, compDelay))
  }

  datatype Head = Head(seqNum: U64, pc: U64, weight: U32, kind: RecordType)

  function ParseHead(info: seq<string>): (r: Parsed<Head>)
    ensures r.Success? ==> r.value.kind != INVALID
  {
    var seqNum :- Field(info, 0, true, TWO64);
    var pc :- Field(info, 1, true, TWO64);
    var weight :- Field(info, 2, true, TWO32);
    if |info| <= 3 then Fail(MissingField)
    else
      var kind :- KindOf(info[3]);
      if kind == INVALID then Fail(InvalidType) else Success(Head(seqNum, pc, weight, kind))
  }

  /** The three parts of a line. Whatever is accepted is representable, with its defaults
      written out. */
  function ParseParts(info: seq<string>, rob: seq<string>, reg: seq<string>): (p: Parsed<InstDepRecord>)
    ensures p.Success? ==> p.value.Representable() && p.value.Filled() == p.value
  {
    var h :- ParseHead(info);
    var q :- ParseRequest(h.kind, info);
    var robDep :- Numbers(rob);
    var regDep :- Numbers(reg);
    Success(InstDepRecord(h.seqNum, Some(h.pc), Some(h.weight), h.kind, q.pAddr, q.size, q.flags,
      q.compDelay, robDep, regDep, None, None))
  }

  function ParseLine(line: string): (p: Parsed<InstDepRecord>)
    ensures p.Success? ==> p.value.Representable() && p.value.Filled() == p.value
  {
    var parts := Split(Strip(line), ':');
    if |parts| != 3 then Fail(WrongShape)
    else ParseParts(Split(parts[0], ','), Split(Strip(parts[1]), ','), Split(parts[2], ','))
  }

  function Lines(text: string): seq<string>
    decreases |text|
  {
    if text == "" then []
    else if '\n' in text then
      var i := Index(text, '\n');
      [text[..i + 1]] + Lines(text[i + 1..])
    else [text]
  }

  function ParseLines(lines: seq<string>): Parsed<seq<InstDepRecord>> {
    if lines == [] then Success([])
    else
      var r :- ParseLine(lines[0]);
      var rest :- ParseLines(lines[1..]);
      Success([r] + rest)
  }

  // ----- what is accepted

  predicate Reads(fields: seq<string>, i: nat, isLong: bool, n: int) {
    i < |fields| && Number(fields[i], isLong) == Some(n)
  }

  lemma FieldReads(info: seq<string>, i: nat, isLong: bool, bound: int)
    ensures Field(info, i, isLong, bound).Success? ==> Reads(info, i, isLong, Field(info, i, isLong, bound).value)
  {
  }

  lemma HeadReads(info: seq<string>)
    requires ParseHead(info).Success?
    ensures var h := ParseHead(info).value;
      && Reads(info, 0, true, h.seqNum) && Reads(info, 1, true, h.pc) && Reads(info, 2, true, h.weight)
      && |info| > 3 && info[3] == Name(h.kind)
  {
    FieldReads(info, 0, true, TWO64);
    FieldReads(info, 1, true, TWO64);
    FieldReads(info, 2, true, TWO32);
  }

  /** Only size and flags are read with `int`. */
  lemma RequestReads(kind: RecordType, info: seq<string>)
    requires ParseRequest(kind, info).Success?
    ensures var q := ParseRequest(kind, info).value;
      if kind == LOAD || kind == STORE
      then Reads(info, 4, true, q.pAddr.value) && Reads(info, 5, false, q.size.value)
        && Reads(info, 6, false, q.flags.value) && Reads(info, 7, true, q.compDelay)
      else Reads(info, 4, true, q.compDelay)
  {
    FieldReads(info, 4, true, TWO64);
    FieldReads(info, 5, false, TWO32);
    FieldReads(info, 6, false, TWO32);
    FieldReads(info, 7, true, TWO64);
  }

  /** The fields of a line hold those of a record. */
  ghost predicate Carries(info: seq<string>, r: InstDepRecord) {
    && Reads(info, 0, true, r.seqNum) && Reads(info, 1, true, r.Pc()) && Reads(info, 2, true, r.Weight())
    && |info| > 3 && info[3] == Name(r.kind)
    && if r.Memory()
       then r.pAddr.Some? && Reads(info, 4, true, r.pAddr.value) && r.size.Some? && Reads(info, 5, false, r.size.value)
         && r.flags.Some? && Reads(info, 6, false, r.flags.value) && Reads(info, 7, true, r.compDelay)
       else Reads(info, 4, true, r.compDelay)
  }

  lemma PartsRead(info: seq<string>, rob: seq<string>, reg: seq<string>)
    requires ParseParts(info, rob, reg).Success?
    ensures var r := ParseParts(info, rob, reg).value;
      Carries(info, r) && Numbers(rob) == Success(r.robDep) && Numbers(reg) == Success(r.regDep)
  {
    HeadReads(info);
    RequestReads(ParseHead(info).value.kind, info);
  }

  /** Where each field of an accepted line stands. */
  lemma AcceptedFields(line: string)
    requires ParseLine(line).Success?
    ensures var r, parts := ParseLine(line).value, Split(Strip(line), ':');
      && |parts| == 3 && Carries(Split(parts[0], ','), r)
      && Numbers(Split(Strip(parts[1]), ',')) == Success(r.robDep)
      && Numbers(Split(parts[2], ',')) == Success(r.regDep)
  {
    var parts := Split(Strip(line), ':');
    PartsRead(Split(parts[0], ','), Split(Strip(parts[1]), ','), Split(parts[2], ','));
  }

  function NonEmpty(ps: seq<string>): seq<string> {
    if ps == [] then [] else if ps[0] == "" then NonEmpty(ps[1..]) else [ps[0]] + NonEmpty(ps[1..])
  }

  ghost predicate AreNumbers(items: seq<string>, ns: seq<U64>) {
    |items| == |ns| && forall i :: 0 <= i < |ns| ==> Reads(items, i, true, ns[i])
  }

  lemma AreNumbersStep(p: string, items: seq<string>, ns: seq<U64>)
    requires ns != []
    ensures AreNumbers([p] + items, ns) <==> Reads([p], 0, true, ns[0]) && AreNumbers(items, ns[1..])
  {
    var all, rest := [p] + items, ns[1..];
    assert Reads(all, 0, true, ns[0]) <==> Reads([p], 0, true, ns[0]);
    forall i | 0 <= i < |items| && i < |rest|
      ensures Reads(items, i, true, rest[i]) <==> Reads(all, i + 1, true, ns[i + 1])
    {
      assert all[i + 1] == items[i];
    }
    if AreNumbers(all, ns) {
      forall i | 0 <= i < |rest|
        ensures Reads(items, i, true, rest[i])
      {
        assert Reads(all, i + 1, true, ns[i + 1]);
      }
    }
    if Reads([p], 0, true, ns[0]) && AreNumbers(items, rest) {
      forall i | 0 <= i < |ns|
        ensures Reads(all, i, true, ns[i])
      {
        assert i > 0 ==> Reads(items, i - 1, true, rest[i - 1]);
      }
    }
  }

  lemma NumbersStep(ps: seq<string>, ns: seq<U64>)
    requires ps != [] && ps[0] != "" && ns != []
    ensures Numbers(ps) == Success(ns) <==> Reads([ps[0]], 0, true, ns[0]) && Numbers(ps[1..]) == Success(ns[1..])
  {
    assert ns == [ns[0]] + ns[1..];
  }

  /** Dependencies are the numbers of the items that are not empty, in order. */
  lemma {:induction false} DepsIff(ps: seq<string>, ns: seq<U64>)
    ensures Numbers(ps) == Success(ns) <==> AreNumbers(NonEmpty(ps), ns)
  {
    if ps != [] {
      if ps[0] == "" {
        DepsIff(ps[1..], ns);
      } else if ns != [] {
        DepsIff(ps[1..], ns[1..]);
        NumbersStep(ps, ns);
        AreNumbersStep(ps[0], NonEmpty(ps[1..]), ns);
      }
    }
  }

  // ----- round trip of a line

  lemma {:induction false} DecimalsClean(ns: seq<U64>, c: char)
    requires !IsDigit(c)
    ensures Lacks(Decimals(ns), c)
  {
    if ns != [] {
      DecimalDigits(ns[0]);
      DecimalsClean(ns[1..], c);
    }
  }

  lemma DecimalClean(n: nat, c: char)
    requires !IsDigit(c)
    ensures Lacks([Decimal(n)], c)
  {
    DecimalDigits(n);
  }

  lemma PresentClean(x: Option<int>, c: char)
    requires x.Some? ==> x.value >= 0
    requires !IsDigit(c)
    ensures Lacks(Present(x), c)
  {
    if x.Some? {
      DecimalClean(x.value, c);
    }
  }

  lemma LacksConcat(ps: seq<string>, qs: seq<string>, c: char)
    requires Lacks(ps, c) && Lacks(qs, c)
    ensures Lacks(ps + qs, c)
  {
  }

  lemma InfoClean(r: InstDepRecord, c: char)
    requires c == ',' || c == ':' || c == '\n'
    ensures Lacks(InfoFields(r), c)
  {
    HeadClean(r, c);
    PresentClean(r.pAddr, c);
    PresentClean(r.size, c);
    PresentClean(r.flags, c);
    DecimalClean(r.compDelay, c);
    LacksConcat(HeadFields(r), Present(r.pAddr), c);
    LacksConcat(HeadFields(r) + Present(r.pAddr), Present(r.size), c);
    LacksConcat(HeadFields(r) + Present(r.pAddr) + Present(r.size), Present(r.flags), c);
    LacksConcat(HeadFields(r) + Present(r.pAddr) + Present(r.size) + Present(r.flags), [Decimal(r.compDelay)], c);
  }

  lemma HeadClean(r: InstDepRecord, c: char)
    requires c == ',' || c == ':' || c == '\n'
    ensures Lacks(HeadFields(r), c)
  {
    var a, b, d := [Decimal(r.seqNum)], [Decimal(r.Pc())], [Decimal(r.Weight())];
    DecimalClean(r.seqNum, c);
    DecimalClean(r.Pc(), c);
    DecimalClean(r.Weight(), c);
    NameClean(r.kind, c);
    LacksConcat(a, b, c);
    LacksConcat(a + b, d, c);
    LacksConcat(a + b + d, [Name(r.kind)], c);
    assert HeadFields(r) == a + b + d + [Name(r.kind)];
  }

  lemma NameClean(t: RecordType, c: char)
    requires c == ',' || c == ':' || c == '\n'
    ensures Lacks([Name(t)], c)
  {
    assert c !in Name(t);
  }

  lemma NumbersFirst(n: U64, ps: seq<string>)
    requires Numbers(ps).Success?
    ensures Numbers([Decimal(n)] + ps) == Success([n] + Numbers(ps).value)
  {
    DecimalDigits(n);
    NumberOfDecimal(n, true);
    assert ([Decimal(n)] + ps)[1..] == ps;
  }

  lemma {:induction false} NumbersOfDecimals(ns: seq<U64>)
    ensures Numbers(Decimals(ns)) == Success(ns)
  {
    if ns != [] {
      NumbersOfDecimals(ns[1..]);
      NumbersFirst(ns[0], Decimals(ns[1..]));
      assert ns == [ns[0]] + ns[1..];
    }
  }

  /** Dependency text is read back. */
  lemma DepsRoundTrip(ns: seq<U64>)
    ensures Numbers(Split(DepText(ns), ',')) == Success(ns)
  {
    var ps := [""] + Decimals(ns);
    DecimalsClean(ns, ',');
    SplitJoin(ps, ',');
    assert ps[1..] == Decimals(ns);
    NumbersOfDecimals(ns);
  }

  /** It is tight and has no separator but the comma. */
  lemma DepsClean(ns: seq<U64>, c: char)
    requires c == ':' || c == '\n'
    ensures c !in DepText(ns) && Tight(DepText(ns))
  {
    DecimalsClean(ns, c);
    JoinLacks([""] + Decimals(ns), ',', c);
    DepTextEnds(ns);
  }

  lemma DepTextEnds(ns: seq<U64>)
    ensures ns == [] ==> DepText(ns) == ""
    ensures ns != [] ==> DepText(ns) != "" && DepText(ns)[0] == ',' && IsDigit(DepText(ns)[|DepText(ns)| - 1])
  {
    var ps := [""] + Decimals(ns);
    if ns != [] {
      var n := |ns|;
      DecimalsLast(ns);
      assert ps == ps[..n] + [ps[n]];
      JoinSnoc(ps[..n], ps[n], ',');
      assert ps[1..] == Decimals(ns);
    }
  }

  lemma {:induction false} DecimalsLast(ns: seq<U64>)
    requires ns != []
    ensures var s := Decimals(ns)[|ns| - 1]; s != "" && AllDigits(s)
  {
    if |ns| == 1 {
      DecimalDigits(ns[0]);
    } else {
      DecimalsLast(ns[1..]);
    }
  }

  lemma FieldOfDecimal(info: seq<string>, i: nat, n: nat, isLong: bool, bound: int)
    requires i < |info| && info[i] == Decimal(n) && n < bound
    ensures Field(info, i, isLong, bound) == Success(n)
  {
    NumberOfDecimal(n, isLong);
  }

  lemma HeadRoundTrip(r: InstDepRecord)
    requires r.kind != INVALID
    ensures ParseHead(InfoFields(r)) == Success(Head(r.seqNum, r.Pc(), r.Weight(), r.kind))
  {
    var info := InfoFields(r);
    assert info[..4] == HeadFields(r);
    FieldOfDecimal(info, 0, r.seqNum, true, TWO64);
    FieldOfDecimal(info, 1, r.Pc(), true, TWO64);
    FieldOfDecimal(info, 2, r.Weight(), true, TWO32);
    assert info[3] == Name(r.kind) && KindOf(info[3]) == Success(r.kind);
  }

  lemma RequestRoundTrip(r: InstDepRecord)
    requires r.Representable()
    ensures ParseRequest(r.kind, InfoFields(r)) == Success(Request(r.pAddr, r.size, r.flags, r.compDelay))
  {
    var info := InfoFields(r);
    if r.Memory() {
      assert info == HeadFields(r) +
        [Decimal(r.pAddr.value), Decimal(r.size.value), Decimal(r.flags.value), Decimal(r.compDelay)];
      FieldOfDecimal(info, 4, r.pAddr.value, true, TWO64);
      FieldOfDecimal(info, 5, r.size.value, false, TWO32);
      FieldOfDecimal(info, 6, r.flags.value, false, TWO32);
      FieldOfDecimal(info, 7, r.compDelay, true, TWO64);
    } else {
      assert info == HeadFields(r) + [Decimal(r.compDelay)];
      FieldOfDecimal(info, 4, r.compDelay, true, TWO64);
    }
  }

  lemma StripBody(r: InstDepRecord)
    ensures Strip(Line(r)) == Body(r) && '\n' !in Body(r)
    ensures Split(Body(r), ':') == [Join(InfoFields(r), ','), DepText(r.robDep), DepText(r.regDep)]
  {
    var i, ps := Join(InfoFields(r), ','), [Join(InfoFields(r), ','), DepText(r.robDep), DepText(r.regDep)];
    InfoClean(r, ':');
    InfoClean(r, '\n');
    JoinLacks(InfoFields(r), ',', ':');
    JoinLacks(InfoFields(r), ',', '\n');
    DepsClean(r.robDep, ':');
    DepsClean(r.robDep, '\n');
    DepsClean(r.regDep, ':');
    DepsClean(r.regDep, '\n');
    SplitJoin(ps, ':');
    JoinLacks(ps, ':', '\n');
    BodyEnds(r);
    StripNewline(Body(r));
  }

  lemma BodyEnds(r: InstDepRecord)
    ensures Body(r) != "" && Tight(Body(r))
  {
    var i := Join(InfoFields(r), ',');
    DecimalDigits(r.seqNum);
    assert i == Decimal(r.seqNum) + [','] + Join(InfoFields(r)[1..], ',');
    assert IsDigit(i[0]);
    var ps := [i, DepText(r.robDep)];
    assert [i, DepText(r.robDep), DepText(r.regDep)] == ps + [DepText(r.regDep)];
    JoinSnoc(ps, DepText(r.regDep), ':');
    assert Body(r) == Join(ps, ':') + [':'] + DepText(r.regDep);
    assert Join(ps, ':')[0] == i[0];
    DepTextEnds(r.regDep);
  }

  lemma StripNewline(s: string)
    requires s != "" && Tight(s)
    ensures Strip(s + "\n") == s
  {
    var t := s + "\n";
    assert StripLeft(t) == t;
    assert t[|t| - 1] == '\n' && t[..|t| - 1] == s;
    assert StripRight(t) == StripRight(s) == s;
  }

  /** Printing a record and parsing the line gives the record back, with its defaults
      written out, if and only if the record is representable. */
  lemma LineRoundTripIff(r: InstDepRecord)
    ensures ParseLine(Line(r)) == Success(r.Filled()) <==> r.Representable()
  {
    if r.Representable() {
      LineRoundTrip(r);
    }
  }

  lemma LineRoundTrip(r: InstDepRecord)
    requires r.Representable()
    ensures ParseLine(Line(r)) == Success(r.Filled())
  {
    StripBody(r);
    InfoClean(r, ',');
    SplitJoin(InfoFields(r), ',');
    StripDeps(r.robDep);
    PartsRoundTrip(r);
  }

  lemma StripDeps(ns: seq<U64>)
    ensures Strip(DepText(ns)) == DepText(ns)
  {
    DepsClean(ns, ':');
  }

  lemma PartsRoundTrip(r: InstDepRecord)
    requires r.Representable()
    ensures ParseParts(InfoFields(r), Split(DepText(r.robDep), ','), Split(DepText(r.regDep), ',')) == Success(r.Filled())
  {
    HeadRoundTrip(r);
    RequestRoundTrip(r);
    DepsRoundTrip(r.robDep);
    DepsRoundTrip(r.regDep);
  }

  // ----- round trip of a trace

  function FilledAll(rs: seq<InstDepRecord>): (fs: seq<InstDepRecord>)
    ensures |fs| == |rs| && forall i :: 0 <= i < |rs| ==> fs[i] == rs[i].Filled()
  {
    if rs == [] then [] else [rs[0].Filled()] + FilledAll(rs[1..])
  }

  ghost predicate AllRepresentable(rs: seq<InstDepRecord>) {
    forall i :: 0 <= i < |rs| ==> rs[i].Representable()
  }

  lemma RepresentableStep(rs: seq<InstDepRecord>)
    requires rs != []
    ensures AllRepresentable(rs) <==> rs[0].Representable() && AllRepresentable(rs[1..])
  {
    if rs[0].Representable() && AllRepresentable(rs[1..]) {
      forall i | 0 <= i < |rs|
        ensures rs[i].Representable()
      {
        assert i > 0 ==> rs[i] == rs[1..][i - 1];
      }
    }
  }

  lemma LinesFirst(r: InstDepRecord, rest: string)
    ensures Lines(Line(r) + rest) == [Line(r)] + Lines(rest)
  {
    StripBody(r);
    var text := Line(r) + rest;
    assert text == Body(r) + ['\n'] + rest;
    IndexAfter(Body(r), '\n', rest);
    assert text[|Body(r)|] == '\n';
    assert text[..|Body(r)| + 1] == Line(r) && text[|Body(r)| + 1..] == rest;
  }

  lemma ParseFirst(line: string, lines: seq<string>, r: InstDepRecord, rs: seq<InstDepRecord>)
    ensures ParseLines([line] + lines) == Success([r] + rs) <==>
      ParseLine(line) == Success(r) && ParseLines(lines) == Success(rs)
  {
    var all := [line] + lines;
    assert all[0] == line && all[1..] == lines;
    if ParseLine(line).Success? && ParseLines(lines).Success? {
      var a, b := [ParseLine(line).value] + ParseLines(lines).value, [r] + rs;
      if a == b {
        assert a[0] == b[0] && a[1..] == b[1..];
        assert ParseLines(lines).value == a[1..] && rs == b[1..];
      }
    }
  }

  /** Printing and parsing gives the records with their defaults written out. */
  predicate Survives(rs: seq<InstDepRecord>) {
    ParseLines(Lines(Text(rs))) == Success(FilledAll(rs))
  }

  lemma TraceStep(rs: seq<InstDepRecord>)
    requires rs != []
    ensures Survives(rs) <==> rs[0].Representable() && Survives(rs[1..])
  {
    LinesFirst(rs[0], Text(rs[1..]));
    ParseFirst(Line(rs[0]), Lines(Text(rs[1..])), rs[0].Filled(), FilledAll(rs[1..]));
    LineRoundTripIff(rs[0]);
  }

  /** Main result: a trace survives printing and parsing, with its defaults written out, if
      and only if all its records are representable. */
  lemma {:induction false} TraceRoundTripIff(rs: seq<InstDepRecord>)
    ensures Survives(rs) <==> AllRepresentable(rs)
  {
    if rs != [] {
      TraceStep(rs);
      RepresentableStep(rs);
      TraceRoundTripIff(rs[1..]);
    }
  }

  lemma {:induction false} AcceptedAreRepresentable(lines: seq<string>)
    ensures var p := ParseLines(lines);
      p.Success? ==> |p.value| == |lines| && AllRepresentable(p.value) && FilledAll(p.value) == p.value
  {
    if lines != [] {
      AcceptedAreRepresentable(lines[1..]);
    }
  }

  /** Whatever text is accepted, printing what was read and parsing it again changes nothing. */
  lemma ReprintIsStable(text: string)
    ensures var p := ParseLines(Lines(text)); p.Success? ==> ParseLines(Lines(Text(p.value))) == p
  {
    var p := ParseLines(Lines(text));
    if p.Success? {
      AcceptedAreRepresentable(Lines(text));
      TraceRoundTripIff(p.value);
    }
  }

  // ----- the loops of the two scripts

  /** One iteration of the printer: the record is written field by field. */
  method PrintRecord(r: InstDepRecord) returns (out: string)
    ensures out == Line(r)
  {
    out := PrintInfo(r);
    var rob := PrintDeps(r.robDep);
    var reg := PrintDeps(r.regDep);
    var info := Join(InfoFields(r), ',');
    JoinSnoc([info], rob, ':');
    JoinSnoc([info, rob], reg, ':');
    assert [info] + [rob] == [info, rob] && [info, rob] + [reg] == [info, rob, reg];
    out := out + ":" + rob + ":" + reg + "\n";
  }

  method PrintInfo(r: InstDepRecord) returns (out: string)
    ensures out == Join(InfoFields(r), ',')
  {
    out := Decimal(r.seqNum) + "," + Decimal(r.Pc()) + "," + Decimal(r.Weight()) + "," + Name(r.kind);
    HeadText(r);
    out := PrintPresent(HeadFields(r), r.pAddr, out);
    out := PrintPresent(HeadFields(r) + Present(r.pAddr), r.size, out);
    out := PrintPresent(HeadFields(r) + Present(r.pAddr) + Present(r.size), r.flags, out);
    JoinSnoc(HeadFields(r) + Present(r.pAddr) + Present(r.size) + Present(r.flags), Decimal(r.compDelay), ',');
    out := out + "," + Decimal(r.compDelay);
  }

  lemma HeadText(r: InstDepRecord)
    ensures Join(HeadFields(r), ',') ==
      Decimal(r.seqNum) + "," + Decimal(r.Pc()) + "," + Decimal(r.Weight()) + "," + Name(r.kind)
  {
    var h := HeadFields(r);
    JoinSnoc([h[0]], h[1], ',');
    JoinSnoc([h[0], h[1]], h[2], ',');
    JoinSnoc([h[0], h[1], h[2]], h[3], ',');
    assert [h[0]] + [h[1]] == [h[0], h[1]] && [h[0], h[1]] + [h[2]] == [h[0], h[1], h[2]];
    assert [h[0], h[1], h[2]] + [h[3]] == h;
  }

  /** An optional field is written after those before it. */
  method PrintPresent(ghost before: seq<string>, x: Option<int>, sofar: string) returns (out: string)
    requires x.Some? ==> x.value >= 0
    requires before != [] && sofar == Join(before, ',')
    ensures out == Join(before + Present(x), ',')
  {
    out := sofar;
    if x.Some? {
      JoinSnoc(before, Decimal(x.value), ',');
      out := out + "," + Decimal(x.value);
    } else {
      assert before + Present(x) == before;
    }
  }

  method PrintDeps(ns: seq<U64>) returns (out: string)
    ensures out == DepText(ns)
  {
    out := "";
    for i := 0 to |ns|
      invariant out == DepText(ns[..i])
    {
      DecimalsSnoc(ns[..i], ns[i]);
      assert ns[..i + 1] == ns[..i] + [ns[i]];
      JoinSnoc([""] + Decimals(ns[..i]), Decimal(ns[i]), ',');
      assert [""] + (Decimals(ns[..i]) + [Decimal(ns[i])]) == [""] + Decimals(ns[..i]) + [Decimal(ns[i])];
      out := out + "," + Decimal(ns[i]);
    }
    assert ns[..|ns|] == ns;
  }

  lemma {:induction false} DecimalsSnoc(ns: seq<U64>, n: U64)
    ensures Decimals(ns + [n]) == Decimals(ns) + [Decimal(n)]
  {
    if ns != [] {
      DecimalsSnoc(ns[1..], n);
      assert (ns + [n])[1..] == ns[1..] + [n];
    }
  }

  /** How many records have an order dependency, and how many a register dependency. */
  function RobCount(rs: seq<InstDepRecord>): nat {
    if rs == [] then 0 else (if rs[0].robDep != [] then 1 else 0) + RobCount(rs[1..])
  }

  function RegCount(rs: seq<InstDepRecord>): nat {
    if rs == [] then 0 else (if rs[0].regDep != [] then 1 else 0) + RegCount(rs[1..])
  }

  /** The printer's loop and the two counts it reports. */
  method PrintTrace(rs: seq<InstDepRecord>) returns (text: string, robDeps: nat, regDeps: nat)
    ensures text == Text(rs) && robDeps == RobCount(rs) && regDeps == RegCount(rs)
  {
    text, robDeps, regDeps := "", 0, 0;
    var rest := rs;
    while rest != []
      invariant text + Text(rest) == Text(rs)
      invariant robDeps + RobCount(rest) == RobCount(rs) && regDeps + RegCount(rest) == RegCount(rs)
      decreases |rest|
    {
      var r := rest[0];
      var line := PrintRecord(r);
      rest := rest[1..];
      Sequences.Regroup(text, line, Text(rest));
      text := text + line;
      if r.robDep != [] {
        robDeps := robDeps + 1;
      }
      if r.regDep != [] {
        regDeps := regDeps + 1;
      }
    }
  }

  /** The loops over the dependencies of a line. */
  method ParseDeps(ps: seq<string>) returns (p: Parsed<seq<U64>>)
    ensures p == Numbers(ps)
  {
    var deps: seq<U64> := [];
    assert ps[0..] == ps && (Numbers(ps).Success? ==> [] + Numbers(ps).value == Numbers(ps).value);
    for i := 0 to |ps|
      invariant Numbers(ps) == After(deps, Numbers(ps[i..]))
    {
      assert ps[i..][0] == ps[i] && ps[i..][1..] == ps[i + 1..];
      if ps[i] != "" {
        var n := Bounded(ps[i], true, TWO64);
        if n.Fail? {
          return Fail(n.why);
        }
        AfterSnoc(deps, n.value, Numbers(ps[i + 1..]));
        deps := deps + [n.value];
      }
    }
    assert ps[|ps|..] == [] && deps + [] == deps;
    return Success(deps);
  }

  function After(deps: seq<U64>, rest: Parsed<seq<U64>>): Parsed<seq<U64>> {
    if rest.Success? then Success(deps + rest.value) else rest
  }

  lemma AfterSnoc(deps: seq<U64>, n: U64, rest: Parsed<seq<U64>>)
    ensures After(deps, After([n], rest)) == After(deps + [n], rest)
  {
    if rest.Success? {
      assert deps + ([n] + rest.value) == deps + [n] + rest.value;
    }
  }

  /** The values are those of the first lines, all accepted. */
  ghost predicate Accepts<T>(parse: string -> Parsed<T>, lines: seq<string>, values: seq<T>) {
    |values| <= |lines| && forall i :: 0 <= i < |values| ==> parse(lines[i]) == Success(values[i])
  }

  lemma OneMoreAccepted<T>(parse: string -> Parsed<T>, lines: seq<string>, values: seq<T>, x: T)
    requires Accepts(parse, lines, values) && |values| < |lines| && parse(lines[|values|]) == Success(x)
    ensures Accepts(parse, lines, values + [x])
  {
  }

  /** The parser's loop: the records written, and why it stopped if it did. */
  method ParseTrace(lines: seq<string>) returns (records: seq<InstDepRecord>, stopped: Option<Why>)
    ensures Accepts(ParseLine, lines, records)
    ensures stopped.None? ==> |records| == |lines|
    ensures stopped.Some? ==> |records| < |lines| && ParseLine(lines[|records|]) == Fail(stopped.value)
  {
    records := [];
    while |records| < |lines|
      invariant Accepts(ParseLine, lines, records)
    {
      var p := ParseLine(lines[|records|]);
      if p.Fail? {
        return records, Some(p.why);
      }
      OneMoreAccepted(ParseLine, lines, records, p.value);
      records := records + [p.value];
    }
    stopped := None;
  }
}
