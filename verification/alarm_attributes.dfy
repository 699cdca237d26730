/** Alarm attributes: settings per port and sub-type kept as page/bit masks over settings per sub-type
    (gpnAlmCfg.c, gpnAlmDataStructApi.c), and the overlay they amount to. */
module AlarmAttributes {
  import opened Basics
  import opened AlarmPages
  import opened Words

  const CANCEL := 0
  const ENABLE := 1
  const DISABLE := 2

  datatype Column = Rank | Screen | Filter | Report | Record | Reverse

  /** A sub-type: where its bit is, where its record is in a port, and its own settings. */
  datatype SubType = SubType(
    page: nat, bit: nat, order: nat, almRank: nat, isScreen: nat, isFilted: nat, isReport: nat, isRecord: nat)

  /** A two-valued column of a port: which sub-types are set on the port, and what they are set to. */
  datatype Masks = Masks(base: seq<Word>, info: seq<Word>)

  /** A port; a rank set on the port is in the port's record of the sub-type. */
  datatype Port = Port(
    rankBase: seq<Word>, ranks: seq<nat>, scre: Masks, filt: Masks, rept: Masks, reck: Masks, inve: seq<Word>)

  datatype System = System(types: map<nat, SubType>, ports: map<nat, Port>)

  predicate SubFormed(t: SubType, records: nat) {
    t.page < PAGE_NUM && t.bit < PAGE_BIT_SIZE && t.order < records
  }

  predicate MasksFormed(m: Masks) {
    |m.base| == PAGE_NUM && |m.info| == PAGE_NUM
  }

  predicate PortFormed(p: Port, records: nat) {
    && |p.ranks| == records && |p.rankBase| == PAGE_NUM && |p.inve| == PAGE_NUM
    && MasksFormed(p.scre) && MasksFormed(p.filt) && MasksFormed(p.rept) && MasksFormed(p.reck)
  }

  /** Every sub-type has its own bit and its own record. */
  predicate Formed(s: System, records: nat) {
    && (forall i :: i in s.types ==> SubFormed(s.types[i], records))
    && (forall k :: k in s.ports ==> PortFormed(s.ports[k], records))
    && (forall i, j :: i in s.types && j in s.types && i != j ==> Apart(s.types[i], s.types[j]))
  }

  predicate Apart(t: SubType, u: SubType) {
    (t.page != u.page || t.bit != u.bit) && t.order != u.order
  }

  // ----- masks -----

  function Get(masks: seq<Word>, t: SubType): bool
    requires |masks| == PAGE_NUM && t.page < PAGE_NUM && t.bit < PAGE_BIT_SIZE
  {
    masks[t.page][t.bit]
  }

  function Put(masks: seq<Word>, t: SubType, b: bool): (after: seq<Word>)
    requires |masks| == PAGE_NUM && t.page < PAGE_NUM && t.bit < PAGE_BIT_SIZE
    ensures |after| == PAGE_NUM && Get(after, t) == b
    ensures forall u: SubType ::
      u.page < PAGE_NUM && u.bit < PAGE_BIT_SIZE && (u.page != t.page || u.bit != t.bit) ==>
        Get(after, u) == Get(masks, u)
  {
    masks[t.page := masks[t.page][t.bit := b]]
  }

  // ----- what the code stores and reads -----

  predicate IsRank(v: nat) { 1 <= v <= 4 }

  predicate IsSwitch(c: Column) { c != Rank && c != Reverse }

  /** A set mask bit means enabled for report and record, and the other way round for screen and filter. */
  predicate SetMeansEnabled(c: Column) { c == Report || c == Record }

  function MasksOf(p: Port, c: Column): Masks
    requires IsSwitch(c)
  {
    match c
    case Screen => p.scre
    case Filter => p.filt
    case Report => p.rept
    case Record => p.reck
  }

  function WithMasks(p: Port, c: Column, m: Masks): (q: Port)
    requires IsSwitch(c)
    ensures MasksOf(q, c) == m && q.rankBase == p.rankBase && q.ranks == p.ranks && q.inve == p.inve
    ensures forall d :: IsSwitch(d) && d != c ==> MasksOf(q, d) == MasksOf(p, d)
  {
    match c
    case Screen => p.(scre := m)
    case Filter => p.(filt := m)
    case Report => p.(rept := m)
    case Record => p.(reck := m)
  }

  function Own(t: SubType, c: Column): nat {
    match c
    case Rank => t.almRank
    case Screen => t.isScreen
    case Filter => t.isFilted
    case Report => t.isReport
    case Record => t.isRecord
    case Reverse => DISABLE
  }

  function WithOwn(t: SubType, c: Column, v: nat): (u: SubType)
    ensures u.page == t.page && u.bit == t.bit && u.order == t.order
    ensures forall d :: Own(u, d) == if d == c && c != Reverse then v else Own(t, d)
  {
    match c
    case Rank => t.(almRank := v)
    case Screen => t.(isScreen := v)
    case Filter => t.(isFilted := v)
    case Report => t.(isReport := v)
    case Record => t.(isRecord := v)
    case Reverse => t
  }

  /** gpnAlmCfgPortOfSubAlmScreen, ...Filt, ...Report, ...Record: cancelling a screen leaves its value bit. */
  function SetMasks(m: Masks, t: SubType, c: Column, v: nat): (n: Masks)
    requires MasksFormed(m) && t.page < PAGE_NUM && t.bit < PAGE_BIT_SIZE
    ensures MasksFormed(n)
  {
    if v == ENABLE || v == DISABLE then
      Masks(Put(m.base, t, true), Put(m.info, t, (v == ENABLE) == SetMeansEnabled(c)))
    else if v == CANCEL then
      Masks(Put(m.base, t, false), if c == Screen then m.info else Put(m.info, t, false))
    else m
  }

  /** gpnAlmCfgPortOfSubAlmRank, gpnAlmCfgPortOfSubAlmReverse, and the four above */
  function PortSet(p: Port, t: SubType, c: Column, v: nat, records: nat): (q: Port)
    requires PortFormed(p, records) && SubFormed(t, records)
    ensures PortFormed(q, records)
  {
    if c == Rank then
      if IsRank(v) || v == CANCEL
      then p.(rankBase := Put(p.rankBase, t, v != CANCEL), ranks := p.ranks[t.order := v])
      else p
    else if c == Reverse then p.(inve := Put(p.inve, t, v == ENABLE))
    else WithMasks(p, c, SetMasks(MasksOf(p, c), t, c, v))
  }

  /** gpnAlmCfgSubAlm...: what is taken as a sub-type's own setting. */
  predicate TypeAccepts(t: SubType, c: Column, v: nat) {
    if c == Rank then v != t.almRank && IsRank(v) else c != Reverse && (v == ENABLE || v == DISABLE)
  }

  /** A sub-type's new rank also goes into the records of the ports that do not override it. */
  function RankFromType(p: Port, t: SubType, v: nat, records: nat): (q: Port)
    requires PortFormed(p, records) && SubFormed(t, records)
    ensures PortFormed(q, records)
  {
    if Get(p.rankBase, t) then p else p.(ranks := p.ranks[t.order := v])
  }

  /** gpnAlmDSApiPortAlmAttriCheckOut: what is read of one column... */
  function Read(p: Port, t: SubType, c: Column, records: nat): nat
    requires PortFormed(p, records) && SubFormed(t, records)
  {
    if c == Rank then if Get(p.rankBase, t) then p.ranks[t.order] else t.almRank
    else if c == Reverse then if Get(p.inve, t) then ENABLE else DISABLE
    else
      var m := MasksOf(p, c);
      if Get(m.base, t) then if Get(m.info, t) == SetMeansEnabled(c) then ENABLE else DISABLE else Own(t, c)
  }

  /** ...and whether the masks say that it is set on the port. */
  predicate Overridden(p: Port, t: SubType, c: Column, records: nat)
    requires PortFormed(p, records) && SubFormed(t, records)
  {
    if c == Rank then Get(p.rankBase, t) else if c == Reverse then Get(p.inve, t) else Get(MasksOf(p, c).base, t)
  }

  // ----- requests -----

  /** One column of a request, for a sub-type or for a port and a sub-type. */
  datatype Op = TypeCol(sub: nat, col: Column, value: nat) | PortCol(port: nat, sub: nat, col: Column, value: nat)

  function Step(s: System, op: Op, records: nat): (t: System)
    requires Formed(s, records)
    ensures Formed(t, records) && t.types.Keys == s.types.Keys && t.ports.Keys == s.ports.Keys
  {
    match op
    case TypeCol(sub, col, value) =>
      if sub !in s.types || !TypeAccepts(s.types[sub], col, value) then s
      else
        var t := s.types[sub];
        var types := s.types[sub := WithOwn(t, col, value)];
        if col == Rank then System(types, map k | k in s.ports :: RankFromType(s.ports[k], t, value, records))
        else s.(types := types)
    case PortCol(port, sub, col, value) =>
      if port !in s.ports || sub !in s.types then s
      else s.(ports := s.ports[port := PortSet(s.ports[port], s.types[sub], col, value, records)])
  }

  /** A request of gpnAlmDSApiAlmAttribModify: which columns, set or cancelled, and to what. */
  datatype Request = Request(
    port: Option<nat>, sub: nat, selected: set<Column>, kept: set<Column>, values: map<Column, nat>)

  function ColumnOp(r: Request, c: Column): seq<Op>
    requires forall c: Column :: c in r.values
  {
    if c !in r.selected then []
    else if r.port.None? then (if c == Reverse then [] else [TypeCol(r.sub, c, r.values[c])])
    else [PortCol(r.port.value, r.sub, c, if c in r.kept then r.values[c] else CANCEL)]
  }

  /** The columns in the order in which the function goes through them. */
  const COLUMNS := [Rank, Screen, Filter, Report, Record, Reverse]

  function OpsOf(r: Request, columns: seq<Column>): seq<Op>
    requires forall c: Column :: c in r.values
  {
    if columns == [] then [] else OpsOf(r, columns[..|columns| - 1]) + ColumnOp(r, columns[|columns| - 1])
  }

  function Ops(r: Request): seq<Op>
    requires forall c: Column :: c in r.values
  {
    OpsOf(r, COLUMNS)
  }

  /** The value is one that the setter takes, and port and sub-type are there. */
  predicate Accepts(s: System, op: Op) {
    && op.sub in s.types
    && match op
       case TypeCol(sub, col, value) =>
         if col == Rank then 1 <= value <= 4 || value == s.types[sub].almRank else value == 1 || value == 2
       case PortCol(port, _, col, value) =>
         port in s.ports && if col == Rank then value <= 4 else col == Reverse || value <= 2
  }

  predicate LastAccepted(s: System, ops: seq<Op>, records: nat)
    requires Formed(s, records)
  {
    ops != [] && Accepts(Run(s, ops[..|ops| - 1], records), ops[|ops| - 1])
  }

  function Run(s: System, ops: seq<Op>, records: nat): (t: System)
    requires Formed(s, records)
    ensures Formed(t, records) && t.types.Keys == s.types.Keys && t.ports.Keys == s.ports.Keys
  {
    if ops == [] then s else Step(Run(s, ops[..|ops| - 1], records), ops[|ops| - 1], records)
  }

  // ----- the overlay -----

  /** Settings of sub-types, and settings of ports over them. */
  datatype Overlay = Overlay(own: map<(nat, Column), nat>, over: map<(nat, nat, Column), nat>)

  function OverlayRead(o: Overlay, port: nat, sub: nat, c: Column): nat
    requires (sub, c) in o.own
  {
    if (port, sub, c) in o.over then o.over[(port, sub, c)] else o.own[(sub, c)]
  }

  function Without(m: map<(nat, nat, Column), nat>, key: (nat, nat, Column)): map<(nat, nat, Column), nat> {
    map k | k in m && k != key :: m[k]
  }

  predicate PortAccepts(c: Column, v: nat) {
    if c == Rank then IsRank(v) else v == ENABLE || v == DISABLE
  }

  /** Reverse mode has no setting of the sub-type: it is off unless the port has it on. */
  function OverlayStep(o: Overlay, op: Op): Overlay {
    match op
    case TypeCol(sub, col, value) =>
      var valid := if col == Rank then IsRank(value) else col != Reverse && (value == ENABLE || value == DISABLE);
      if (sub, col) in o.own && valid then o.(own := o.own[(sub, col) := value]) else o
    case PortCol(port, sub, col, value) =>
      if (col == Reverse && value != ENABLE) || value == CANCEL then o.(over := Without(o.over, (port, sub, col)))
      else if PortAccepts(col, value) then o.(over := o.over[(port, sub, col) := value])
      else o
  }

  function OverlayRun(o: Overlay, ops: seq<Op>): Overlay {
    if ops == [] then o else OverlayStep(OverlayRun(o, ops[..|ops| - 1]), ops[|ops| - 1])
  }

  ghost predicate Agrees(s: System, o: Overlay, records: nat, port: nat, sub: nat, c: Column)
    requires Formed(s, records) && port in s.ports && sub in s.types
  {
    && (Overridden(s.ports[port], s.types[sub], c, records) <==> (port, sub, c) in o.over)
    && (sub, c) in o.own && Read(s.ports[port], s.types[sub], c, records) == OverlayRead(o, port, sub, c)
  }

  ghost predicate OwnAgrees(s: System, o: Overlay, sub: nat, c: Column) {
    && (sub in s.types <==> (sub, c) in o.own)
    && (sub in s.types ==> Own(s.types[sub], c) == o.own[(sub, c)])
  }

  ghost predicate Refines(s: System, o: Overlay, records: nat)
    requires Formed(s, records)
  {
    && (forall sub, c: Column :: OwnAgrees(s, o, sub, c))
    && (forall port, sub, c: Column :: port in s.ports && sub in s.types ==> Agrees(s, o, records, port, sub, c))
  }

  // ----- one column of one port -----

  /** What is read, and whether it is set on the port, of another sub-type or another column stays. */
  lemma PortSetLeavesOthers(p: Port, t: SubType, c: Column, v: nat, u: SubType, d: Column, records: nat)
    requires PortFormed(p, records) && SubFormed(t, records) && SubFormed(u, records)
    requires Apart(t, u) || (u == t && d != c)
    ensures var q := PortSet(p, t, c, v, records);
      && Read(q, u, d, records) == Read(p, u, d, records)
      && (Overridden(q, u, d, records) <==> Overridden(p, u, d, records))
  {
  }

  /** A setting reads back; cancelling it shows the sub-type's again; anything else changes nothing. */
  lemma PortSetReadsBack(p: Port, t: SubType, c: Column, v: nat, records: nat)
    requires PortFormed(p, records) && SubFormed(t, records)
    ensures var q := PortSet(p, t, c, v, records);
      && (PortAccepts(c, v) ==> Read(q, t, c, records) == v)
      && (v == CANCEL ==> Read(q, t, c, records) == Own(t, c))
      && (c != Reverse && v != CANCEL && !PortAccepts(c, v) ==> q == p)
      && (c == Reverse && v != ENABLE ==> Read(q, t, c, records) == DISABLE && !Overridden(q, t, c, records))
      && (c == Reverse && v == ENABLE ==> Overridden(q, t, c, records))
      && (c != Reverse && PortAccepts(c, v) ==> Overridden(q, t, c, records))
      && (c != Reverse && v == CANCEL ==> !Overridden(q, t, c, records))
  {
  }

  /** A cancelled rank reads as the sub-type's again, but the record that reports carry is left at 0. */
  lemma CancelledRankRecord(p: Port, t: SubType, records: nat)
    requires PortFormed(p, records) && SubFormed(t, records)
    ensures var q := PortSet(p, t, Rank, CANCEL, records);
      Read(q, t, Rank, records) == t.almRank && q.ranks[t.order] == CANCEL
  {
  }

  /** How a switch of a port is kept: its base bit says that it is set there, and its value bit that it is on
      for report and record, off for screen and filter. */
  lemma SwitchBits(p: Port, t: SubType, c: Column, v: nat, records: nat)
    requires PortFormed(p, records) && SubFormed(t, records) && IsSwitch(c) && (v == 1 || v == 2)
    ensures var m := MasksOf(PortSet(p, t, c, v, records), c);
      && m.base[t.page][t.bit]
      && (m.info[t.page][t.bit] <==> if c == Report || c == Record then v == 1 else v == 2)
  {
  }

  /** A cancelled switch leaves its value bit cleared, except a cancelled screen, which leaves it as it was; what
      is read is the sub-type's own either way. */
  lemma CancelledSwitchBit(p: Port, t: SubType, c: Column, records: nat)
    requires PortFormed(p, records) && SubFormed(t, records) && IsSwitch(c)
    ensures var q := PortSet(p, t, c, CANCEL, records);
      && Read(q, t, c, records) == Own(t, c)
      && (Get(MasksOf(q, c).info, t) <==> c == Screen && Get(MasksOf(p, c).info, t))
  {
  }

  // ----- refinement -----

  lemma PortStepReads(s: System, op: Op, records: nat, sub: nat, c: Column)
    requires Formed(s, records) && op.PortCol? && op.port in s.ports && op.sub in s.types && sub in s.types
    ensures var p, q := s.ports[op.port], Step(s, op, records).ports[op.port];
      && q == PortSet(p, s.types[op.sub], op.col, op.value, records)
      && (sub != op.sub || c != op.col ==>
            && Read(q, s.types[sub], c, records) == Read(p, s.types[sub], c, records)
            && (Overridden(q, s.types[sub], c, records) <==> Overridden(p, s.types[sub], c, records)))
  {
    if sub != op.sub || c != op.col {
      PortSetLeavesOthers(s.ports[op.port], s.types[op.sub], op.col, op.value, s.types[sub], c, records);
    }
  }

  lemma OverlayPortOthers(o: Overlay, op: Op, port: nat, sub: nat, c: Column)
    requires op.PortCol? && (sub, c) in o.own && (port != op.port || sub != op.sub || c != op.col)
    ensures OverlayStep(o, op).own == o.own
    ensures (port, sub, c) in OverlayStep(o, op).over <==> (port, sub, c) in o.over
    ensures OverlayRead(OverlayStep(o, op), port, sub, c) == OverlayRead(o, port, sub, c)
  {
  }

  lemma PortStepAgreesElsewhere(s: System, o: Overlay, op: Op, records: nat, sub: nat, c: Column)
    requires Formed(s, records) && op.PortCol? && op.port in s.ports && op.sub in s.types && sub in s.types
    requires Agrees(s, o, records, op.port, sub, c) && (sub != op.sub || c != op.col)
    ensures Agrees(Step(s, op, records), OverlayStep(o, op), records, op.port, sub, c)
  {
    PortStepReads(s, op, records, sub, c);
    OverlayPortOthers(o, op, op.port, sub, c);
  }

  lemma OverlayPortHere(o: Overlay, op: Op)
    requires op.PortCol? && (op.sub, op.col) in o.own
    ensures var q, key := OverlayStep(o, op), (op.port, op.sub, op.col);
      && q.own == o.own
      && (PortAccepts(op.col, op.value) && (op.col != Reverse || op.value == ENABLE) ==>
            key in q.over && q.over[key] == op.value)
      && ((op.col == Reverse && op.value != ENABLE) || op.value == CANCEL ==> key !in q.over)
      && (op.col != Reverse && op.value != CANCEL && !PortAccepts(op.col, op.value) ==> q == o)
  {
  }

  lemma PortStepAgreesHere(s: System, o: Overlay, op: Op, records: nat)
    requires Formed(s, records) && op.PortCol? && op.port in s.ports && op.sub in s.types
    requires Agrees(s, o, records, op.port, op.sub, op.col) && OwnAgrees(s, o, op.sub, op.col)
    ensures Agrees(Step(s, op, records), OverlayStep(o, op), records, op.port, op.sub, op.col)
  {
    PortStepReads(s, op, records, op.sub, op.col);
    PortSetReadsBack(s.ports[op.port], s.types[op.sub], op.col, op.value, records);
    OverlayPortHere(o, op);
  }

  lemma PortStepAgrees(s: System, o: Overlay, op: Op, records: nat, sub: nat, c: Column)
    requires Formed(s, records) && op.PortCol? && op.port in s.ports && op.sub in s.types && sub in s.types
    requires Agrees(s, o, records, op.port, sub, c) && OwnAgrees(s, o, op.sub, op.col)
    ensures Agrees(Step(s, op, records), OverlayStep(o, op), records, op.port, sub, c)
  {
    if sub == op.sub && c == op.col {
      PortStepAgreesHere(s, o, op, records);
    } else {
      PortStepAgreesElsewhere(s, o, op, records, sub, c);
    }
  }

  lemma PortStepRefines(s: System, o: Overlay, op: Op, records: nat)
    requires Formed(s, records) && Refines(s, o, records) && op.PortCol? && op.port in s.ports && op.sub in s.types
    ensures Refines(Step(s, op, records), OverlayStep(o, op), records)
  {
    var s', o' := Step(s, op, records), OverlayStep(o, op);
    forall sub, c: Column ensures OwnAgrees(s', o', sub, c) {
      assert OwnAgrees(s, o, sub, c);
    }
    forall port, sub, c: Column | port in s'.ports && sub in s'.types
      ensures Agrees(s', o', records, port, sub, c)
    {
      assert Agrees(s, o, records, port, sub, c) && OwnAgrees(s, o, op.sub, op.col);
      if port == op.port { PortStepAgrees(s, o, op, records, sub, c); }
    }
  }

  /** A sub-type's new setting is read wherever the port has none of its own, and nothing else changes. */
  lemma TypeSetReads(p: Port, t: SubType, c: Column, v: nat, u: SubType, d: Column, records: nat)
    requires PortFormed(p, records) && SubFormed(t, records) && SubFormed(u, records)
    requires TypeAccepts(t, c, v) && (Apart(t, u) || u == t)
    ensures var q, w := if c == Rank then RankFromType(p, t, v, records) else p, if u == t then WithOwn(t, c, v) else u;
      && (Overridden(q, w, d, records) <==> Overridden(p, u, d, records))
      && Read(q, w, d, records)
         == if u == t && d == c && !Overridden(p, t, c, records) then v else Read(p, u, d, records)
  {
  }

  lemma TypeStepAt(s: System, op: Op, records: nat, port: nat, sub: nat)
    requires Formed(s, records) && op.TypeCol? && op.sub in s.types && port in s.ports && sub in s.types
    requires TypeAccepts(s.types[op.sub], op.col, op.value)
    ensures var t, u := Step(s, op, records), s.types[op.sub];
      && t.types[sub] == (if sub == op.sub then WithOwn(u, op.col, op.value) else s.types[sub])
      && t.ports[port] == if op.col == Rank then RankFromType(s.ports[port], u, op.value, records) else s.ports[port]
  {
  }

  /** A sub-type's new rank goes into the records of exactly those ports that have not set it themselves. */
  lemma RankReachesRecords(s: System, sub: nat, rank: nat, records: nat, port: nat)
    requires Formed(s, records) && sub in s.types && port in s.ports && 1 <= rank <= 4 && rank != s.types[sub].almRank
    ensures var t, p := s.types[sub], s.ports[port];
      Step(s, TypeCol(sub, Rank, rank), records).ports[port]
        == if p.rankBase[t.page][t.bit] then p else p.(ranks := p.ranks[t.order := rank])
  {
    TypeStepAt(s, TypeCol(sub, Rank, rank), records, port, sub);
  }

  lemma TypeStepReads(s: System, op: Op, records: nat, port: nat, sub: nat, c: Column)
    requires Formed(s, records) && op.TypeCol? && op.sub in s.types && port in s.ports && sub in s.types
    requires TypeAccepts(s.types[op.sub], op.col, op.value)
    ensures var t := Step(s, op, records);
      && (Overridden(t.ports[port], t.types[sub], c, records) <==> Overridden(s.ports[port], s.types[sub], c, records))
      && Read(t.ports[port], t.types[sub], c, records)
         == if sub == op.sub && c == op.col && !Overridden(s.ports[port], s.types[sub], c, records) then op.value
            else Read(s.ports[port], s.types[sub], c, records)
  {
    TypeStepAt(s, op, records, port, sub);
    TypeSetReads(s.ports[port], s.types[op.sub], op.col, op.value, s.types[sub], c, records);
  }

  lemma TypeStepAgrees(s: System, o: Overlay, op: Op, records: nat, port: nat, sub: nat, c: Column)
    requires Formed(s, records) && op.TypeCol? && op.sub in s.types && port in s.ports && sub in s.types
    requires Agrees(s, o, records, port, sub, c) && OwnAgrees(s, o, op.sub, op.col) && OwnAgrees(s, o, sub, c)
    ensures Agrees(Step(s, op, records), OverlayStep(o, op), records, port, sub, c)
  {
    if TypeAccepts(s.types[op.sub], op.col, op.value) {
      TypeStepReads(s, op, records, port, sub, c);
      OverlayTypeReads(o, op, port, sub, c);
    } else {
      assert Step(s, op, records) == s;
      OverlayTypeIdle(s.types[op.sub], o, op, port, sub, c);
    }
  }

  lemma OverlayTypeReads(o: Overlay, op: Op, port: nat, sub: nat, c: Column)
    requires op.TypeCol? && (op.sub, op.col) in o.own && (sub, c) in o.own
    requires op.col != Reverse && PortAccepts(op.col, op.value)
    ensures OverlayStep(o, op).over == o.over && (sub, c) in OverlayStep(o, op).own
    ensures OverlayRead(OverlayStep(o, op), port, sub, c)
         == if sub == op.sub && c == op.col && (port, sub, c) !in o.over then op.value else OverlayRead(o, port, sub, c)
  {
  }

  lemma OverlayTypeIdle(t: SubType, o: Overlay, op: Op, port: nat, sub: nat, c: Column)
    requires op.TypeCol? && !TypeAccepts(t, op.col, op.value) && (sub, c) in o.own
    requires (op.sub, op.col) in o.own ==> o.own[(op.sub, op.col)] == Own(t, op.col)
    ensures OverlayStep(o, op).over == o.over && (sub, c) in OverlayStep(o, op).own
    ensures OverlayRead(OverlayStep(o, op), port, sub, c) == OverlayRead(o, port, sub, c)
  {
  }

  lemma TypeStepRefines(s: System, o: Overlay, op: Op, records: nat)
    requires Formed(s, records) && Refines(s, o, records) && op.TypeCol? && op.sub in s.types
    ensures Refines(Step(s, op, records), OverlayStep(o, op), records)
  {
    var s', o' := Step(s, op, records), OverlayStep(o, op);
    assert OwnAgrees(s, o, op.sub, op.col);
    forall sub, c: Column ensures OwnAgrees(s', o', sub, c) {
      assert OwnAgrees(s, o, sub, c);
    }
    forall port, sub, c: Column | port in s'.ports && sub in s'.types
      ensures Agrees(s', o', records, port, sub, c)
    {
      assert Agrees(s, o, records, port, sub, c) && OwnAgrees(s, o, sub, c);
      TypeStepAgrees(s, o, op, records, port, sub, c);
    }
  }

  /** The overlay that a state of the masks amounts to. */
  function OverlayOf(s: System, records: nat): Overlay
    requires Formed(s, records)
  {
    Overlay(map sub, c: Column | sub in s.types :: (sub, c) := Own(s.types[sub], c),
            map port, sub, c: Column |
              port in s.ports && sub in s.types && Overridden(s.ports[port], s.types[sub], c, records)
              :: (port, sub, c) := Read(s.ports[port], s.types[sub], c, records))
  }

  lemma OverlayOfRefines(s: System, records: nat)
    requires Formed(s, records)
    ensures Refines(s, OverlayOf(s, records), records)
  {
    forall port, sub, c: Column | port in s.ports && sub in s.types
      ensures Agrees(s, OverlayOf(s, records), records, port, sub, c)
    {
    }
  }

  /** Requests for ports or sub-types that are not there are refused on both sides. */
  predicate Known(s: System, op: Op) {
    op.sub in s.types && (op.PortCol? ==> op.port in s.ports)
  }

  lemma {:induction false} RunRefines(s: System, o: Overlay, ops: seq<Op>, records: nat)
    requires Formed(s, records) && Refines(s, o, records) && forall op :: op in ops ==> Known(s, op)
    ensures Refines(Run(s, ops, records), OverlayRun(o, ops), records)
  {
    if ops != [] {
      var n := |ops| - 1;
      RunRefines(s, o, ops[..n], records);
      assert ops[n] in ops;
      match ops[n]
      case TypeCol(_, _, _) => TypeStepRefines(Run(s, ops[..n], records), OverlayRun(o, ops[..n]), ops[n], records);
      case PortCol(_, _, _, _) => PortStepRefines(Run(s, ops[..n], records), OverlayRun(o, ops[..n]), ops[n], records);
    }
  }

  /** After any sequence of settings of sub-types and ports, what is read for every port, sub-type and
      column is the port's setting where it has one, else the sub-type's. */
  lemma MasksAreOverlay(s: System, ops: seq<Op>, records: nat, port: nat, sub: nat, c: Column)
    requires Formed(s, records) && port in s.ports && sub in s.types && forall op :: op in ops ==> Known(s, op)
    ensures var t, o := Run(s, ops, records), OverlayRun(OverlayOf(s, records), ops);
      (sub, c) in o.own && Read(t.ports[port], t.types[sub], c, records) == OverlayRead(o, port, sub, c)
  {
    OverlayOfRefines(s, records);
    RunRefines(s, OverlayOf(s, records), ops, records);
    assert Agrees(Run(s, ops, records), OverlayRun(OverlayOf(s, records), ops), records, port, sub, c);
  }

  // ----- the configuration in memory -----

  /** What a request for one port and sub-type answers: values, and which of them are the port's own. */
  datatype Attri = Attri(marks: set<Column>, rank: nat, mask: nat, filt: nat, rept: nat, recd: nat, revs: nat)

  /** The ports after the new rank has gone into all but those still queued. */
  function RankedBut(
      ports: map<nat, Port>, queue: set<nat>, t: SubType, rank: nat, records: nat): (r: map<nat, Port>)
    requires SubFormed(t, records) && forall k :: k in ports ==> PortFormed(ports[k], records)
  {
    map k | k in ports :: if k in queue then ports[k] else RankFromType(ports[k], t, rank, records)
  }

  lemma RankedNext(ports: map<nat, Port>, queue: set<nat>, k: nat, t: SubType, rank: nat, records: nat)
    requires SubFormed(t, records) && forall k :: k in ports ==> PortFormed(ports[k], records)
    requires queue <= ports.Keys && k in queue
    ensures RankedBut(ports, queue, t, rank, records)[k] == ports[k]
    ensures RankedBut(ports, queue, t, rank, records)[k := RankFromType(ports[k], t, rank, records)]
         == RankedBut(ports, queue - {k}, t, rank, records)
  {
  }

  class AlarmConfig {
    const records: nat
    var types: map<nat, SubType>
    var ports: map<nat, Port>

    ghost function View(): System
      reads this
    {
      System(types, ports)
    }

    constructor (s: System, records: nat)
      ensures View() == s && this.records == records
    {
      types, ports, this.records := s.types, s.ports, records;
    }

    method CfgSubAlmRank(sub: nat, rank: nat) returns (ok: bool)
      requires Formed(View(), records)
      modifies this
      ensures View() == Step(old(View()), TypeCol(sub, Rank, rank), records)
      ensures ok <==> sub in types && (IsRank(rank) || rank == old(types)[sub].almRank)
    {
      if sub !in types {
        return false;
      }
      var t := types[sub];
      if rank != t.almRank {
        if !IsRank(rank) {
          return false;
        }
        RankToPorts(t, rank);
        types := types[sub := t.(almRank := rank)];
      }
      return true;
    }

    method RankToPort(p: Port, t: SubType, rank: nat) returns (q: Port)
      requires PortFormed(p, records) && SubFormed(t, records)
      ensures q == RankFromType(p, t, rank, records)
    {
      q := p;
      if !p.rankBase[t.page][t.bit] {
        q := q.(ranks := q.ranks[t.order := rank]);
      }
    }

    /** The loop over the scanned ports. */
    method RankToPorts(t: SubType, rank: nat)
      requires SubFormed(t, records) && forall k :: k in ports ==> PortFormed(ports[k], records)
      modifies this`ports
      ensures forall k :: k in old(ports) ==> PortFormed(old(ports)[k], records)
      ensures ports == map k | k in old(ports) :: RankFromType(old(ports)[k], t, rank, records)
    {
      ghost var before := ports;
      var queue := ports.Keys;
      while queue != {}
        invariant queue <= before.Keys && ports == RankedBut(before, queue, t, rank, records)
        decreases |queue|
      {
        var k :| k in queue;
        RankedNext(before, queue, k, t, rank, records);
        var p := RankToPort(ports[k], t, rank);
        ports := ports[k := p];
        queue := queue - {k};
      }
    }

    /** gpnAlmCfgSubAlmScreen, ...Filt, ...Report, ...Record */
    method CfgSubAlmSwitch(sub: nat, c: Column, opt: nat) returns (ok: bool)
      requires Formed(View(), records) && IsSwitch(c)
      modifies this
      ensures View() == Step(old(View()), TypeCol(sub, c, opt), records)
      ensures ok <==> sub in types && (opt == ENABLE || opt == DISABLE)
    {
      if sub !in types || !(opt == ENABLE || opt == DISABLE) {
        return false;
      }
      types := types[sub := WithOwn(types[sub], c, opt)];
      return true;
    }

    method CfgPortOfSubAlmRank(port: nat, sub: nat, rank: nat) returns (ok: bool)
      requires Formed(View(), records)
      modifies this
      ensures View() == Step(old(View()), PortCol(port, sub, Rank, rank), records)
      ensures ok <==> port in ports && sub in types && (IsRank(rank) || rank == CANCEL)
    {
      if port !in ports || sub !in types {
        return false;
      }
      var p, t := ports[port], types[sub];
      var w := p.rankBase[t.page];
      if IsRank(rank) {
        w := w[t.bit := true];
      } else if rank == CANCEL {
        w := w[t.bit := false];
      } else {
        assert ports == ports[port := p];
        return false;
      }
      p := p.(rankBase := p.rankBase[t.page := w]);
      if p.ranks[t.order] != rank {
        p := p.(ranks := p.ranks[t.order := rank]);
      }
      assert p.ranks == p.ranks[t.order := rank];
      ports := ports[port := p];
      return true;
    }

    /** gpnAlmCfgPortOfSubAlmScreen, ...Filt, ...Report, ...Record */
    method CfgPortOfSubAlmSwitch(port: nat, sub: nat, c: Column, opt: nat) returns (ok: bool)
      requires Formed(View(), records) && IsSwitch(c)
      modifies this
      ensures View() == Step(old(View()), PortCol(port, sub, c, opt), records)
      ensures ok <==> port in ports && sub in types && opt <= DISABLE
    {
      if port !in ports || sub !in types {
        return false;
      }
      var p, t := ports[port], types[sub];
      var m := MasksOf(p, c);
      var base, info := m.base[t.page], m.info[t.page];
      if opt == ENABLE {
        info := info[t.bit := SetMeansEnabled(c)];
        base := base[t.bit := true];
      } else if opt == DISABLE {
        info := info[t.bit := !SetMeansEnabled(c)];
        base := base[t.bit := true];
      } else if opt == CANCEL {
        if c != Screen {
          info := info[t.bit := false];
        }
        base := base[t.bit := false];
      } else {
        assert WithMasks(p, c, m) == p && ports == ports[port := p];
        return false;
      }
      assert m.info == m.info[t.page := m.info[t.page]];
      ports := ports[port := WithMasks(p, c, Masks(m.base[t.page := base], m.info[t.page := info]))];
      return true;
    }

    method CfgPortOfSubAlmReverse(port: nat, sub: nat, opt: nat) returns (ok: bool)
      requires Formed(View(), records)
      modifies this
      ensures View() == Step(old(View()), PortCol(port, sub, Reverse, opt), records)
      ensures ok <==> port in ports && sub in types
    {
      if port !in ports || sub !in types {
        return false;
      }
      var p, t := ports[port], types[sub];
      var w := p.inve[t.page];
      if opt == ENABLE {
        w := w[t.bit := true];
      } else {
        w := w[t.bit := false];
      }
      ports := ports[port := p.(inve := p.inve[t.page := w])];
      return true;
    }

    /** One selected column of a request. */
    method ModifyColumn(r: Request, c: Column) returns (ok: bool)
      requires Formed(View(), records) && forall c: Column :: c in r.values
      modifies this
      ensures View() == Run(old(View()), ColumnOp(r, c), records)
      ensures ok <==> ColumnOp(r, c) != [] && Accepts(old(View()), ColumnOp(r, c)[0])
    {
      ok := false;
      ghost var s := View();
      RunOne(s, ColumnOp(r, c), records);
      if c in r.selected {
        if r.port.None? {
          if c == Rank {
            ok := CfgSubAlmRank(r.sub, r.values[c]);
          } else if c != Reverse {
            ok := CfgSubAlmSwitch(r.sub, c, r.values[c]);
          }
        } else {
          var value := if c in r.kept then r.values[c] else CANCEL;
          if c == Rank {
            ok := CfgPortOfSubAlmRank(r.port.value, r.sub, value);
          } else if c == Reverse {
            ok := CfgPortOfSubAlmReverse(r.port.value, r.sub, value);
          } else {
            ok := CfgPortOfSubAlmSwitch(r.port.value, r.sub, c, value);
          }
        }
      }
    }

    /** gpnAlmDSApiAlmAttribModify; it answers for the last column it went through, and fails if there is none. */
    method AlmAttribModify(r: Request) returns (ok: bool)
      requires Formed(View(), records) && forall c: Column :: c in r.values
      modifies this
      ensures View() == Run(old(View()), Ops(r), records)
      ensures ok <==> LastAccepted(old(View()), Ops(r), records)
    {
      ghost var s := View();
      ok := false;
      var columns := COLUMNS;
      for i := 0 to |columns|
        invariant View() == Run(s, OpsOf(r, columns[..i]), records)
        invariant ok <==> LastAccepted(s, OpsOf(r, columns[..i]), records)
      {
        NextColumn(s, r, columns, i, records);
        var one := ModifyColumn(r, columns[i]);
        if ColumnOp(r, columns[i]) != [] {
          ok := one;
        }
      }
      assert columns[..|columns|] == columns;
    }

    /** gpnAlmDSApiPortAlmAttributeGet */
    method PortAlmAttributeGet(port: nat, sub: nat) returns (attri: Option<Attri>)
      requires Formed(View(), records)
      ensures attri.Some? <==> port in ports && sub in types
      ensures attri.Some? ==>
        var a, p, t := attri.value, ports[port], types[sub];
        && a.rank == Read(p, t, Rank, records) && a.mask == Read(p, t, Screen, records)
        && a.filt == Read(p, t, Filter, records) && a.rept == Read(p, t, Report, records)
        && a.recd == Read(p, t, Record, records) && a.revs == Read(p, t, Reverse, records)
        && forall c :: c in a.marks <==> c == Reverse || Overridden(p, t, c, records)
    {
      if port !in ports || sub !in types {
        return None;
      }
      var p, t := ports[port], types[sub];
      var marks := {Reverse};
      var rank := t.almRank;
      if p.rankBase[t.page][t.bit] {
        marks := marks + {Rank};
        rank := p.ranks[t.order];
      }
      var mask, filt, rept, recd;
      marks, mask := CheckOutSwitch(p, t, Screen, marks);
      marks, filt := CheckOutSwitch(p, t, Filter, marks);
      marks, rept := CheckOutSwitch(p, t, Report, marks);
      marks, recd := CheckOutSwitch(p, t, Record, marks);
      var revs := if p.inve[t.page][t.bit] then ENABLE else DISABLE;
      return Some(Attri(marks, rank, mask, filt, rept, recd, revs));
    }

    method CheckOutSwitch(p: Port, t: SubType, c: Column, marks: set<Column>) returns (after: set<Column>, value: nat)
      requires PortFormed(p, records) && SubFormed(t, records) && IsSwitch(c)
      ensures after == if Overridden(p, t, c, records) then marks + {c} else marks
      ensures value == Read(p, t, c, records)
    {
      var m := MasksOf(p, c);
      after, value := marks, Own(t, c);
      if m.base[t.page][t.bit] {
        after := after + {c};
        value := if m.info[t.page][t.bit] == SetMeansEnabled(c) then ENABLE else DISABLE;
      }
    }
  }

  lemma RunOne(s: System, ops: seq<Op>, records: nat)
    requires Formed(s, records) && |ops| <= 1
    ensures Run(s, ops, records) == if ops == [] then s else Step(s, ops[0], records)
  {
    if ops != [] {
      assert ops[..|ops| - 1] == [];
      assert Run(s, [], records) == s;
    }
  }

  lemma LastOf(s: System, a: seq<Op>, b: seq<Op>, records: nat)
    requires Formed(s, records) && |b| <= 1
    ensures Run(s, a + b, records) == Run(Run(s, a, records), b, records)
    ensures LastAccepted(s, a + b, records) <==>
      if b == [] then LastAccepted(s, a, records) else Accepts(Run(s, a, records), b[0])
  {
    RunSplit(s, a, b, records);
    if b == [] {
      assert a + b == a;
    } else {
      assert (a + b)[..|a|] == a;
    }
  }

  lemma NextColumn(s: System, r: Request, columns: seq<Column>, i: nat, records: nat)
    requires Formed(s, records) && i < |columns| && forall c: Column :: c in r.values
    ensures Run(s, OpsOf(r, columns[..i + 1]), records)
         == Run(Run(s, OpsOf(r, columns[..i]), records), ColumnOp(r, columns[i]), records)
    ensures LastAccepted(s, OpsOf(r, columns[..i + 1]), records) <==>
      if ColumnOp(r, columns[i]) == [] then LastAccepted(s, OpsOf(r, columns[..i]), records)
      else Accepts(Run(s, OpsOf(r, columns[..i]), records), ColumnOp(r, columns[i])[0])
  {
    assert columns[..i + 1] == columns[..i] + [columns[i]];
    OpsNext(r, columns[..i], columns[i]);
    LastOf(s, OpsOf(r, columns[..i]), ColumnOp(r, columns[i]), records);
  }

  /** What is read of one column of a port and sub-type, whether it is the port's own, and what the sub-type
      itself has: all as before. */
  ghost predicate SameReading(s: System, t: System, records: nat, port: nat, sub: nat, c: Column)
    requires Formed(s, records) && Formed(t, records)
    requires port in s.ports && sub in s.types && port in t.ports && sub in t.types
  {
    && Read(t.ports[port], t.types[sub], c, records) == Read(s.ports[port], s.types[sub], c, records)
    && (Overridden(t.ports[port], t.types[sub], c, records) <==> Overridden(s.ports[port], s.types[sub], c, records))
    && Own(t.types[sub], c) == Own(s.types[sub], c)
  }

  /** A request leaves every column it does not select as it was, for every port and sub-type, and every
      other port and sub-type altogether. */
  lemma RequestLeavesRest(s: System, r: Request, records: nat, port: nat, sub: nat, c: Column)
    requires Formed(s, records) && (forall c: Column :: c in r.values) && port in s.ports && sub in s.types
    requires c !in r.selected || sub != r.sub || (r.port.Some? && r.port.value != port)
    ensures SameReading(s, Run(s, Ops(r), records), records, port, sub, c)
  {
    OpsElsewhere(r, COLUMNS, port, sub, c);
    ElsewhereLeaves(s, Ops(r), records, port, sub, c);
  }

  /** The operation is not about this column of this sub-type, or is about another port. */
  predicate Elsewhere(op: Op, port: nat, sub: nat, c: Column) {
    op.sub != sub || op.col != c || (op.PortCol? && op.port != port)
  }

  lemma {:induction false} OpsElsewhere(r: Request, columns: seq<Column>, port: nat, sub: nat, c: Column)
    requires forall c: Column :: c in r.values
    requires c !in r.selected || c !in columns || sub != r.sub || (r.port.Some? && r.port.value != port)
    ensures forall op :: op in OpsOf(r, columns) ==> Elsewhere(op, port, sub, c)
  {
    if columns != [] {
      var n := |columns| - 1;
      assert columns[n] in columns;
      OpsElsewhere(r, columns[..n], port, sub, c);
    }
  }

  lemma {:induction false} ElsewhereLeaves(s: System, ops: seq<Op>, records: nat, port: nat, sub: nat, c: Column)
    requires Formed(s, records) && port in s.ports && sub in s.types
    requires forall op :: op in ops ==> Elsewhere(op, port, sub, c)
    ensures SameReading(s, Run(s, ops, records), records, port, sub, c)
  {
    if ops != [] {
      var n := |ops| - 1;
      ElsewhereLeaves(s, ops[..n], records, port, sub, c);
      assert ops[n] in ops;
      StepElsewhere(Run(s, ops[..n], records), ops[n], records, port, sub, c);
    }
  }

  lemma StepElsewhere(s: System, op: Op, records: nat, port: nat, sub: nat, c: Column)
    requires Formed(s, records) && port in s.ports && sub in s.types && Elsewhere(op, port, sub, c)
    ensures SameReading(s, Step(s, op, records), records, port, sub, c)
  {
    match op
    case TypeCol(_, _, _) =>
      if op.sub in s.types && TypeAccepts(s.types[op.sub], op.col, op.value) {
        TypeStepElsewhere(s, op, records, port, sub, c);
      }
    case PortCol(_, _, _, _) =>
      if op.port in s.ports && op.sub in s.types { PortStepElsewhere(s, op, records, port, sub, c); }
  }

  lemma TypeStepElsewhere(s: System, op: Op, records: nat, port: nat, sub: nat, c: Column)
    requires Formed(s, records) && port in s.ports && sub in s.types && Elsewhere(op, port, sub, c)
    requires op.TypeCol? && op.sub in s.types && TypeAccepts(s.types[op.sub], op.col, op.value)
    ensures SameReading(s, Step(s, op, records), records, port, sub, c)
  {
    TypeStepReads(s, op, records, port, sub, c);
    TypeStepAt(s, op, records, port, sub);
  }

  lemma PortStepElsewhere(s: System, op: Op, records: nat, port: nat, sub: nat, c: Column)
    requires Formed(s, records) && port in s.ports && sub in s.types && Elsewhere(op, port, sub, c)
    requires op.PortCol? && op.port in s.ports && op.sub in s.types
    ensures SameReading(s, Step(s, op, records), records, port, sub, c)
  {
    if op.port == port { PortStepReads(s, op, records, sub, c); }
  }

  // ----- what a request does to a column it selects -----

  lemma RunNext(s: System, ops: seq<Op>, op: Op, records: nat)
    requires Formed(s, records)
    ensures Run(s, ops + [op], records) == Step(Run(s, ops, records), op, records)
  {
    assert (ops + [op])[..|ops|] == ops;
  }

  lemma {:induction false} RunSplit(s: System, a: seq<Op>, b: seq<Op>, records: nat)
    requires Formed(s, records)
    ensures Run(s, a + b, records) == Run(Run(s, a, records), b, records)
  {
    if b == [] {
      assert a + b == a;
    } else {
      var front, last := b[..|b| - 1], b[|b| - 1];
      assert b == front + [last];
      RunSplit(s, a, front, records);
      RunNext(s, a + front, last, records);
      RunNext(Run(s, a, records), front, last, records);
      Regroup(a, front, [last]);
    }
  }

  lemma OpsNext(r: Request, columns: seq<Column>, c: Column)
    requires forall c: Column :: c in r.values
    ensures OpsOf(r, columns + [c]) == OpsOf(r, columns) + ColumnOp(r, c)
  {
    assert (columns + [c])[..|columns|] == columns;
  }

  lemma {:induction false} OpsSplit(r: Request, a: seq<Column>, b: seq<Column>)
    requires forall c: Column :: c in r.values
    ensures OpsOf(r, a + b) == OpsOf(r, a) + OpsOf(r, b)
  {
    if b == [] {
      assert a + b == a;
    } else {
      var front, last := b[..|b| - 1], b[|b| - 1];
      assert b == front + [last];
      OpsSplit(r, a, front);
      OpsNext(r, front, last);
      OpsNext(r, a + front, last);
      Regroup(a, front, [last]);
      Regroup(OpsOf(r, a), OpsOf(r, front), ColumnOp(r, last));
    }
  }

  /** Each column comes up once. */
  lemma ColumnsAround(c: Column) returns (before: seq<Column>, after: seq<Column>)
    ensures COLUMNS == before + ([c] + after) && c !in before && c !in after
  {
    var i := if c == Rank then 0 else if c == Screen then 1 else if c == Filter then 2
             else if c == Report then 3 else if c == Record then 4 else 5;
    assert COLUMNS[i] == c && forall j :: 0 <= j < 6 && j != i ==> COLUMNS[j] != c;
    before, after := COLUMNS[..i], COLUMNS[i + 1..];
  }

  /** The request as its operations on other columns, its operation on `c`, and its operations on others. */
  lemma OpsAround(r: Request, c: Column) returns (front: seq<Op>, back: seq<Op>)
    requires forall c: Column :: c in r.values
    ensures Ops(r) == front + (ColumnOp(r, c) + back)
    ensures forall op :: op in front || op in back ==> op.col != c
  {
    var before, after := ColumnsAround(c);
    front, back := OpsOf(r, before), OpsOf(r, after);
    OpsSplit(r, before, [c] + after);
    OpsSplit(r, [c], after);
    OpsOfOne(r, c);
    OpsOfOthers(r, before, c);
    OpsOfOthers(r, after, c);
  }

  lemma OpsOfOne(r: Request, c: Column)
    requires forall c: Column :: c in r.values
    ensures OpsOf(r, [c]) == ColumnOp(r, c)
  {
    assert [c][..0] == [] && [] + ColumnOp(r, c) == ColumnOp(r, c);
  }

  lemma {:induction false} OpsOfOthers(r: Request, columns: seq<Column>, c: Column)
    requires (forall c: Column :: c in r.values) && c !in columns
    ensures forall op :: op in OpsOf(r, columns) ==> op.col != c
  {
    if columns != [] { OpsOfOthers(r, columns[..|columns| - 1], c); }
  }

  lemma MiddleAlone(
      s: System, front: seq<Op>, ops: seq<Op>, back: seq<Op>, records: nat, port: nat, sub: nat, c: Column)
    requires Formed(s, records) && port in s.ports && sub in s.types
    requires forall op :: op in front || op in back ==> op.col != c
    ensures SameReading(s, Run(s, front, records), records, port, sub, c)
    ensures var after := Run(Run(s, front, records), ops, records);
      SameReading(after, Run(s, front + (ops + back), records), records, port, sub, c)
  {
    RunSplit(s, front, ops + back, records);
    RunSplit(Run(s, front, records), ops, back, records);
    ElsewhereLeaves(s, front, records, port, sub, c);
    ElsewhereLeaves(Run(Run(s, front, records), ops, records), back, records, port, sub, c);
  }

  /** So what the whole request does to a column is what its own operation does to it. */
  lemma ColumnAlone(s: System, r: Request, records: nat, port: nat, sub: nat, c: Column)
    returns (before: System, after: System)
    requires Formed(s, records) && (forall c: Column :: c in r.values) && port in s.ports && sub in s.types
    ensures Formed(before, records) && before.types.Keys == s.types.Keys && before.ports.Keys == s.ports.Keys
    ensures SameReading(s, before, records, port, sub, c)
    ensures after == if ColumnOp(r, c) == [] then before else Step(before, ColumnOp(r, c)[0], records)
    ensures SameReading(after, Run(s, Ops(r), records), records, port, sub, c)
  {
    var front, back := OpsAround(r, c);
    before := Run(s, front, records);
    after := Run(before, ColumnOp(r, c), records);
    RunOne(before, ColumnOp(r, c), records);
    MiddleAlone(s, front, ColumnOp(r, c), back, records, port, sub, c);
  }

  /** For a port: a selected column that is marked reads as the value asked for, if that is one the column
      takes, and as before if not; a selected column that is not marked reads as the sub-type's own again.
      Reverse mode has no value of the sub-type's: it is on when asked to be on, and else off. */
  lemma PortRequestReads(s: System, r: Request, records: nat, c: Column)
    requires Formed(s, records) && (forall c: Column :: c in r.values) && c in r.selected
    requires r.port.Some? && r.port.value in s.ports && r.sub in s.types
    ensures var t, port, value := Run(s, Ops(r), records), r.port.value, r.values[c];
      var before, own := Read(s.ports[port], s.types[r.sub], c, records), Own(s.types[r.sub], c);
      && Own(t.types[r.sub], c) == own
      && Read(t.ports[port], t.types[r.sub], c, records) ==
           if c == Reverse then (if c in r.kept && value == 1 then 1 else 2)
           else if c !in r.kept || value == 0 then own
           else if 1 <= value <= (if c == Rank then 4 else 2) then value
           else before
  {
    var before, after := ColumnAlone(s, r, records, r.port.value, r.sub, c);
    PortOpReads(before, ColumnOp(r, c)[0], records);
  }

  lemma PortOpReads(s: System, op: Op, records: nat)
    requires Formed(s, records) && op.PortCol? && op.port in s.ports && op.sub in s.types
    ensures var t, c := Step(s, op, records), op.col;
      && t.types == s.types
      && Read(t.ports[op.port], t.types[op.sub], c, records) ==
           if c == Reverse then (if op.value == 1 then 1 else 2)
           else if op.value == 0 then Own(s.types[op.sub], c)
           else if 1 <= op.value <= (if c == Rank then 4 else 2) then op.value
           else Read(s.ports[op.port], s.types[op.sub], c, records)
  {
    PortSetReadsBack(s.ports[op.port], s.types[op.sub], op.col, op.value, records);
  }

  /** What a sub-type takes for its own: a rank, a switch; reverse mode is never its own. */
  predicate Takes(c: Column, value: nat) {
    if c == Rank then 1 <= value <= 4 else c != Reverse && 1 <= value <= 2
  }

  /** For a sub-type: a value that the selected column takes becomes its own and is read on every port that
      has not set that column itself; a port that has keeps its own. Another value changes nothing. */
  lemma TypeRequestReads(s: System, r: Request, records: nat, port: nat, c: Column)
    requires Formed(s, records) && (forall c: Column :: c in r.values) && c in r.selected
    requires r.port.None? && port in s.ports && r.sub in s.types
    ensures TypeTakes(s, Run(s, Ops(r), records), records, port, r.sub, c, r.values[c])
  {
    var before, after := ColumnAlone(s, r, records, port, r.sub, c);
    if ColumnOp(r, c) != [] {
      TypeOpReads(before, ColumnOp(r, c)[0], records, port);
    }
  }

  ghost predicate TypeTakes(s: System, t: System, records: nat, port: nat, sub: nat, c: Column, value: nat)
    requires Formed(s, records) && Formed(t, records)
    requires port in s.ports && sub in s.types && port in t.ports && sub in t.types
  {
    var kept := Overridden(s.ports[port], s.types[sub], c, records);
    && (Overridden(t.ports[port], t.types[sub], c, records) <==> kept)
    && Own(t.types[sub], c) == (if Takes(c, value) then value else Own(s.types[sub], c))
    && Read(t.ports[port], t.types[sub], c, records)
       == if Takes(c, value) && !kept then value else Read(s.ports[port], s.types[sub], c, records)
  }

  lemma TypeOpReads(s: System, op: Op, records: nat, port: nat)
    requires Formed(s, records) && op.TypeCol? && port in s.ports && op.sub in s.types
    ensures TypeTakes(s, Step(s, op, records), records, port, op.sub, op.col, op.value)
  {
    if TypeAccepts(s.types[op.sub], op.col, op.value) {
      TypeStepReads(s, op, records, port, op.sub, op.col);
      TypeStepAt(s, op, records, port, op.sub);
    } else {
      assert Step(s, op, records) == s;
    }
  }
}
