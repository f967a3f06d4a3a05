/** The register-address validator of the template service. */
module TemplateService {
  import opened Prelude
  import opened Intervals
  import opened Registers

  datatype OverlapError = AddressOverlap(first: string, second: string, functionCode: FunctionCode)

  /** One entry of the validator's per-code lists: the last address is inclusive. */
  datatype AddressRange = AddressRange(name: string, start: nat, last: nat)

  function FunctionCodeOf(): Register -> FunctionCode { (r: Register) => r.functionCode }

  /** The words a register occupies. */
  function Words(): Span<Register> {
    Span((r: Register) => r.address, (r: Register) => r.address + WordCount(r.dataType))
  }

  function Ranges(): Span<AddressRange> {
    Span((r: AddressRange) => r.start, (r: AddressRange) => r.last + 1)
  }

  function RangeOf(r: Register): AddressRange {
    AddressRange(r.name, r.address, r.address + WordCount(r.dataType) - 1)
  }

  /** No two registers of one function code share a word. */
  ghost predicate AddressesDisjoint(registers: seq<Register>) {
    KeyedDisjoint(registers, FunctionCodeOf(), Words())
  }

  /** Two registers of one code that overlap, named as the error names them. */
  ghost predicate Clash(registers: seq<Register>, e: OverlapError) {
    exists a, b :: ClashingPair(registers, a, b, e)
  }

  ghost predicate ClashingPair(registers: seq<Register>, a: Register, b: Register, e: OverlapError) {
    && a in registers && b in registers
    && a.name == e.first && b.name == e.second
    && a.functionCode == b.functionCode == e.functionCode
    && !Words().Disjoint(a, b)
  }

  /** Mapping registers to ranges changes no comparison the scan makes. */
  lemma {:induction false} RangesSortAlike(registers: seq<Register>)
    ensures SortBy(MapRanges(registers), Ranges().lo) == MapRanges(SortBy(registers, Words().lo))
  {
    if registers != [] {
      RangesSortAlike(registers[1..]);
      RangesInsertAlike(registers[0], SortBy(registers[1..], Words().lo));
    }
  }

  lemma {:induction false} RangesInsertAlike(r: Register, sorted: seq<Register>)
    ensures InsertBy(RangeOf(r), MapRanges(sorted), Ranges().lo) == MapRanges(InsertBy(r, sorted, Words().lo))
  {
    if sorted != [] && sorted[0].address < r.address {
      RangesInsertAlike(r, sorted[1..]);
    }
  }

  function MapRanges(registers: seq<Register>): (r: seq<AddressRange>)
    ensures |r| == |registers| && forall i :: 0 <= i < |r| ==> r[i] == RangeOf(registers[i])
  {
    if registers == [] then [] else [RangeOf(registers[0])] + MapRanges(registers[1..])
  }

  /** The scan's own comparison between neighbours. */
  ghost predicate NeighboursClear(sorted: seq<AddressRange>) {
    forall i :: 0 <= i < |sorted| - 1 ==> sorted[i].last < sorted[i + 1].start
  }

  ghost predicate FirstClash(group: seq<Register>, clash: (AddressRange, AddressRange)) {
    exists a, b :: ClashIn(group, a, b, clash)
  }

  ghost predicate ClashIn(group: seq<Register>, a: Register, b: Register, clash: (AddressRange, AddressRange)) {
    a in group && b in group && clash == (RangeOf(a), RangeOf(b)) && !Words().Disjoint(a, b)
  }

  lemma ScanDecides(group: seq<Register>)
    ensures NeighboursClear(SortBy(MapRanges(group), Ranges().lo)) <==> PairwiseDisjoint(group, Words())
  {
    var sorted := SortBy(group, Words().lo);
    RangesSortAlike(group);
    SortedScanDecides(group, Words());
    var ranges := MapRanges(sorted);
    if NeighboursClear(ranges) {
      forall i | 0 <= i < |sorted| - 1
        ensures Words().hi(sorted[i]) <= Words().lo(sorted[i + 1])
      {
        assert ranges[i].last < ranges[i + 1].start;
      }
    }
    if NeighboursDisjoint(sorted, Words()) {
      forall i | 0 <= i < |ranges| - 1
        ensures ranges[i].last < ranges[i + 1].start
      {
        assert Words().hi(sorted[i]) <= Words().lo(sorted[i + 1]);
      }
    }
  }

  lemma ScanClash(group: seq<Register>, i: nat)
    requires i + 1 < |SortBy(MapRanges(group), Ranges().lo)|
    requires var ranges := SortBy(MapRanges(group), Ranges().lo); ranges[i].last >= ranges[i + 1].start
    ensures var ranges := SortBy(MapRanges(group), Ranges().lo); FirstClash(group, (ranges[i], ranges[i + 1]))
  {
    var sorted := SortBy(group, Words().lo);
    RangesSortAlike(group);
    SortByOrders(group, Words().lo);
    SortByMembers(group, Words().lo, sorted[i]);
    SortByMembers(group, Words().lo, sorted[i + 1]);
    assert Words().lo(sorted[i]) <= Words().lo(sorted[i + 1]);
    assert ClashIn(group, sorted[i], sorted[i + 1], (RangeOf(sorted[i]), RangeOf(sorted[i + 1])));
  }

  /** One function code's sorted scan: the first neighbours that overlap, if any. */
  method ScanGroup(group: seq<Register>) returns (clash: Option<(AddressRange, AddressRange)>)
    ensures clash.None? <==> PairwiseDisjoint(group, Words())
    ensures clash.Some? ==> FirstClash(group, clash.value)
  {
    var ranges := SortBy(MapRanges(group), Ranges().lo);
    ScanDecides(group);
    var i := 0;
    while i + 1 < |ranges|
      invariant forall k :: 0 <= k < i && k + 1 < |ranges| ==> ranges[k].last < ranges[k + 1].start
    {
      if ranges[i].last >= ranges[i + 1].start {
        ScanClash(group, i);
        return Some((ranges[i], ranges[i + 1]));
      }
      i := i + 1;
    }
    return None;
  }

  lemma ClashNames(registers: seq<Register>, code: FunctionCode, clash: (AddressRange, AddressRange))
    requires FirstClash(Filter(registers, KeyIs(FunctionCodeOf(), code)), clash)
    ensures Clash(registers, AddressOverlap(clash.0.name, clash.1.name, code))
  {
    var group := Filter(registers, KeyIs(FunctionCodeOf(), code));
    var a, b :| ClashIn(group, a, b, clash);
    assert KeyIs(FunctionCodeOf(), code)(a) && KeyIs(FunctionCodeOf(), code)(b);
    assert ClashingPair(registers, a, b, AddressOverlap(clash.0.name, clash.1.name, code));
  }

  /**
   Accepts a register list exactly when no two registers of the same function
   code overlap; a rejection names two that do.
   */
  method ValidateNoAddressOverlap(registers: seq<Register>) returns (r: Result<(), OverlapError>)
    ensures r.Ok? <==> AddressesDisjoint(registers)
    ensures r.Err? ==> Clash(registers, r.error)
  {
    var order, byCode := GroupBy(registers, FunctionCodeOf());
    GroupsDecideKeyed(registers, FunctionCodeOf(), Words(), byCode.Keys);
    for n := 0 to |order|
      invariant forall i :: 0 <= i < n ==> PairwiseDisjoint(byCode[order[i]], Words())
    {
      var code := order[n];
      var clash := ScanGroup(byCode[code]);
      if clash.Some? {
        var e := AddressOverlap(clash.value.0.name, clash.value.1.name, code);
        ClashNames(registers, code, clash.value);
        return Err(e);
      }
    }
    return Ok(());
  }
}
