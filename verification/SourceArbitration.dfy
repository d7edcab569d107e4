/** Which source wins when several importers fill one CMDB field
    (serviceops_core/ci_precedence.py: precedence, rank, arbitrate;
    serviceops_core/ci_sources.py: mark_changed). */
module SourceArbitration {
  import opened Outcomes
  import opened Basics

  type Source = string
  type Field = string

  datatype Value = Missing | Text(text: string)

  const DEFAULT_PRECEDENCE: seq<Source> := ["manual", "csv", "snipeit", "netbox"]
  const CONFLICT_LIMIT := 200

  predicate IsEmpty(v: Value) { v == Missing || v == Text("") }

  // ---------------------------------------------------------------- precedence

  function KnownOnly(items: seq<string>): seq<Source> {
    if items == [] then []
    else
      var last := items[|items| - 1];
      KnownOnly(items[..|items| - 1]) + (if last in DEFAULT_PRECEDENCE then [last] else [])
  }

  /** The first `n` default sources that the setting does not list, in the default order. */
  function Unlisted(configured: seq<Source>, n: nat): seq<Source>
    requires n <= |DEFAULT_PRECEDENCE|
  {
    if n == 0 then []
    else
      var last := DEFAULT_PRECEDENCE[n - 1];
      Unlisted(configured, n - 1) + (if last in configured then [] else [last])
  }

  /** The configured sources that are known, in the configured order, then the missing ones in the default
      order. `items` is the setting split at its commas and stripped. */
  method Precedence(items: seq<string>) returns (order: seq<Source>)
    ensures order == KnownOnly(items) + Unlisted(KnownOnly(items), |DEFAULT_PRECEDENCE|)
    ensures forall s :: s in order <==> s in DEFAULT_PRECEDENCE
    ensures forall i, j :: |KnownOnly(items)| <= j < |order| && 0 <= i < j ==> order[i] != order[j]
  {
    order := [];
    for i := 0 to |items|
      invariant order == KnownOnly(items[..i])
      invariant forall s :: s in order ==> s in DEFAULT_PRECEDENCE
    {
      assert items[..i + 1][..i] == items[..i];
      if items[i] in DEFAULT_PRECEDENCE {
        order := order + [items[i]];
      }
    }
    assert items[..|items|] == items;
    order := AppendUnlisted(order);
  }

  method AppendUnlisted(configured: seq<Source>) returns (order: seq<Source>)
    requires forall s :: s in configured ==> s in DEFAULT_PRECEDENCE
    ensures order == configured + Unlisted(configured, |DEFAULT_PRECEDENCE|)
    ensures forall s :: s in order <==> s in DEFAULT_PRECEDENCE
    ensures forall i, j :: |configured| <= j < |order| && 0 <= i < j ==> order[i] != order[j]
  {
    order := configured;
    for i := 0 to |DEFAULT_PRECEDENCE|
      invariant order == configured + Unlisted(configured, i)
    {
      UnlistedMembers(configured, i);
      NoDefaultTwice(i);
      if DEFAULT_PRECEDENCE[i] !in order {
        order := order + [DEFAULT_PRECEDENCE[i]];
      }
    }
    UnlistedMembers(configured, |DEFAULT_PRECEDENCE|);
    assert DEFAULT_PRECEDENCE[..|DEFAULT_PRECEDENCE|] == DEFAULT_PRECEDENCE;
    AppendDistinct(configured, Unlisted(configured, |DEFAULT_PRECEDENCE|));
  }

  lemma AppendDistinct(a: seq<Source>, b: seq<Source>)
    requires (forall s :: s in b ==> s !in a) && NoRepeats(b)
    ensures forall i, j :: |a| <= j < |a + b| && 0 <= i < j ==> (a + b)[i] != (a + b)[j]
  {
    forall i, j | |a| <= j < |a + b| && 0 <= i < j ensures (a + b)[i] != (a + b)[j] {
      assert (a + b)[j] == b[j - |a|];
      if i < |a| { assert (a + b)[i] == a[i] && b[j - |a|] in b; }
    }
  }

  lemma NoDefaultTwice(i: nat)
    requires i < |DEFAULT_PRECEDENCE|
    ensures DEFAULT_PRECEDENCE[i] !in DEFAULT_PRECEDENCE[..i]
  {
    assert "manual"[0] == 'm' && "csv"[0] == 'c' && "snipeit"[0] == 's' && "netbox"[0] == 'n';
  }

  lemma {:induction false} UnlistedMembers(configured: seq<Source>, n: nat)
    requires n <= |DEFAULT_PRECEDENCE|
    ensures var more := Unlisted(configured, n);
      && (forall s :: s in more <==> s !in configured && s in DEFAULT_PRECEDENCE[..n])
      && NoRepeats(more)
    decreases n
  {
    if n > 0 {
      UnlistedMembers(configured, n - 1);
      NoDefaultTwice(n - 1);
      assert DEFAULT_PRECEDENCE[..n] == DEFAULT_PRECEDENCE[..n - 1] + [DEFAULT_PRECEDENCE[n - 1]];
    }
  }

  /** The first position in the order; a source outside it ranks below every listed one. */
  function Rank(s: Source, order: seq<Source>): (r: nat)
    ensures r <= |order| && (r < |order| <==> s in order)
    ensures r < |order| ==> order[r] == s
  {
    if order == [] then 0 else if order[0] == s then 0 else 1 + Rank(s, order[1..])
  }

  // ---------------------------------------------------------------- one field

  /** A field's value and the source recorded for it. */
  datatype Cell = Cell(value: Value, source: Option<Source>)

  function Mark(before: Value, cell: Cell, source: Source): Cell {
    if before == cell.value then cell
    else if IsEmpty(cell.value) then cell.(source := None)
    else cell.(source := Some(source))
  }

  /** The two sources disagree about a value that the earlier one had set. */
  predicate Conflicts(before: Cell, cell: Cell, source: Source) {
    && before.value != cell.value && !IsEmpty(before.value)
    && before.source.Some? && before.source.value != "" && before.source.value != source
  }

  predicate EarlierWins(before: Cell, cell: Cell, source: Source, order: seq<Source>) {
    Conflicts(before, cell, source) && Rank(before.source.value, order) < Rank(source, order)
  }

  function Settle(before: Cell, cell: Cell, source: Source, order: seq<Source>): Cell {
    if EarlierWins(before, cell, source, order) then before else cell
  }

  /** An import that writes `text`: write, mark, arbitrate. */
  function Import(cell: Cell, source: Source, text: string, order: seq<Source>): Cell {
    var written := Mark(cell.value, cell.(value := Text(text)), source);
    Settle(cell, written, source, order)
  }

  // ---------------------------------------------------------------- the item, updated in place

  datatype Dispute = Dispute(field: Field, kept: Source, other: Source, earlierKept: bool)

  /** Every conflict is counted; the first ones are listed. */
  datatype Summary = Summary(total: nat, listed: seq<Dispute>)

  function Note(s: Summary, d: Option<Dispute>): Summary {
    if d.None? then s
    else Summary(s.total + 1, if |s.listed| < CONFLICT_LIMIT then s.listed + [d.value] else s.listed)
  }

  /** Who keeps the field, and against whom. */
  function DisputeOver(f: Field, was: Cell, source: Source, order: seq<Source>): Dispute
    requires was.source.Some?
  {
    var wins := Rank(was.source.value, order) < Rank(source, order);
    Dispute(f, if wins then was.source.value else source, if wins then source else was.source.value, wins)
  }

  /** Room is left only up to the limit. */
  function Capped(listed: seq<Dispute>, more: seq<Dispute>): seq<Dispute> {
    if |listed| >= CONFLICT_LIMIT then listed
    else if |more| <= CONFLICT_LIMIT - |listed| then listed + more
    else listed + more[..CONFLICT_LIMIT - |listed|]
  }

  class ConfigurationItem {
    var values: map<Field, Value>
    var sources: map<Field, Source>

    /** `mark_changed`. */
    method MarkChanged(before: map<Field, Value>, source: Source, fields: seq<Field>)
      requires NoRepeats(fields)
      modifies this`sources
      ensures forall f :: f in fields ==>
        CellIn(values, sources, f) == Mark(ValueIn(before, f), CellIn(old(values), old(sources), f), source)
      ensures forall f :: f !in fields ==> CellIn(values, sources, f) == CellIn(old(values), old(sources), f)
    {
      var marked := sources;
      for i := 0 to |fields|
        invariant forall f :: f !in fields[..i] ==> SourceIn(marked, f) == SourceIn(sources, f)
        invariant forall f :: f in fields[..i] ==>
          SourceIn(marked, f) == Mark(ValueIn(before, f), CellIn(values, sources, f), source).source
      {
        var f := fields[i];
        assert fields[..i + 1] == fields[..i] + [f];
        assert f !in fields[..i];
        var now := ValueIn(values, f);
        if ValueIn(before, f) == now {
          continue;
        }
        if IsEmpty(now) {
          marked := marked - {f};
        } else {
          marked := marked[f := source];
        }
      }
      assert fields[..|fields|] == fields;
      sources := marked;
    }

    /** One field of `arbitrate`. */
    method ArbitrateField(f: Field, before: map<Field, Cell>, source: Source, order: seq<Source>, summary: Summary)
      returns (after: Summary)
      modifies this
      ensures CellIn(values, sources, f) == Settled(before, f, CellIn(old(values), old(sources), f), source, order)
      ensures forall g :: g != f ==> CellIn(values, sources, g) == CellIn(old(values), old(sources), g)
      ensures after == Note(summary, DisputeAt(before, f, CellIn(old(values), old(sources), f), source, order))
    {
      if f !in before || !Conflicts(before[f], CellIn(values, sources, f), source) {
        return summary;
      }
      var was := before[f];
      if Rank(was.source.value, order) < Rank(source, order) {
        values := values[f := was.value];
        sources := sources[f := was.source.value];
        after := Note(summary, Some(Dispute(f, was.source.value, source, true)));
      } else {
        after := Note(summary, Some(Dispute(f, source, was.source.value, false)));
      }
    }

    /** `arbitrate`: `before` is the snapshot of values and sources taken before the import wrote anything.
        Every listed field with a snapshot is settled; every dispute is counted once and reported in field
        order as long as there is room. */
    method Arbitrate(before: map<Field, Cell>, source: Source, order: seq<Source>, fields: seq<Field>, summary: Summary)
      returns (after: Summary)
      requires NoRepeats(fields)
      modifies this
      ensures AllSettled(old(values), old(sources), values, sources, before, source, order, fields)
      ensures var disputes := Disputes(before, Snapshot(old(values), old(sources), fields), source, order, fields);
        after == Summary(summary.total + |disputes|, Capped(summary.listed, disputes))
    {
      after := summary;
      ghost var v, s, written := values, sources, Snapshot(values, sources, fields);
      for i := 0 to |fields|
        invariant AllSettled(v, s, values, sources, before, source, order, fields[..i])
        invariant after == Reported(summary, before, written, source, order, fields[..i])
      {
        ghost var v', s' := values, sources;
        after := ArbitrateField(fields[i], before, source, order, after);
        SettledSnoc(v, s, v', s', values, sources, before, source, order, fields, i);
        ReportedSnoc(summary, before, written, source, order, fields, i);
      }
      assert fields[..|fields|] == fields;
      ReportedCaps(summary, before, written, source, order, fields);
    }

    /** An import that writes one field: snapshot, write, `mark_changed`, `arbitrate`. */
    method ImportText(f: Field, text: string, source: Source, order: seq<Source>, summary: Summary)
      returns (after: Summary)
      modifies this
      ensures CellIn(values, sources, f) == Import(CellIn(old(values), old(sources), f), source, text, order)
      ensures forall g :: g != f ==> CellIn(values, sources, g) == CellIn(old(values), old(sources), g)
    {
      var was := CellIn(values, sources, f);
      values := values[f := Text(text)];
      MarkChanged(map[f := was.value], source, [f]);
      after := Arbitrate(map[f := was], source, order, [f], summary);
    }
  }

  function Snapshot(values: map<Field, Value>, sources: map<Field, Source>, fields: seq<Field>): (m: map<Field, Cell>)
    ensures forall f :: f in fields <==> f in m
    ensures forall f :: f in fields ==> m[f] == CellIn(values, sources, f)
  {
    map f | f in fields :: CellIn(values, sources, f)
  }

  function Settled(before: map<Field, Cell>, f: Field, cell: Cell, source: Source, order: seq<Source>): Cell {
    if f in before then Settle(before[f], cell, source, order) else cell
  }

  /** From (v, s) to (v', s') the given fields were settled and all others left alone. */
  ghost predicate AllSettled(v: map<Field, Value>, s: map<Field, Source>, v': map<Field, Value>, s': map<Field, Source>,
    before: map<Field, Cell>, source: Source, order: seq<Source>, fields: seq<Field>)
  {
    && (forall f :: f in fields ==> CellIn(v', s', f) == Settled(before, f, CellIn(v, s, f), source, order))
    && (forall f :: f !in fields ==> CellIn(v', s', f) == CellIn(v, s, f))
  }

  lemma SettledSnoc(v: map<Field, Value>, s: map<Field, Source>, v': map<Field, Value>, s': map<Field, Source>,
    v'': map<Field, Value>, s'': map<Field, Source>,
    before: map<Field, Cell>, source: Source, order: seq<Source>, fields: seq<Field>, i: nat)
    requires NoRepeats(fields) && i < |fields| && AllSettled(v, s, v', s', before, source, order, fields[..i])
    requires CellIn(v'', s'', fields[i]) == Settled(before, fields[i], CellIn(v', s', fields[i]), source, order)
    requires forall g :: g != fields[i] ==> CellIn(v'', s'', g) == CellIn(v', s', g)
    ensures AllSettled(v, s, v'', s'', before, source, order, fields[..i + 1])
    ensures CellIn(v', s', fields[i]) == CellIn(v, s, fields[i])
  {
    assert fields[..i + 1] == fields[..i] + [fields[i]] && fields[i] !in fields[..i];
  }

  function DisputeAt(
    before: map<Field, Cell>, f: Field, cell: Cell, source: Source, order: seq<Source>): Option<Dispute>
  {
    if f in before && Conflicts(before[f], cell, source) then Some(DisputeOver(f, before[f], source, order)) else None
  }

  /** The disputes of the import with earlier sources, in field order. */
  function Disputes(
    before: map<Field, Cell>, written: map<Field, Cell>, source: Source, order: seq<Source>,
    fields: seq<Field>): seq<Dispute>
    requires forall f :: f in fields ==> f in written
  {
    if fields == [] then []
    else
      var f := fields[|fields| - 1];
      var dispute := DisputeAt(before, f, written[f], source, order);
      Disputes(before, written, source, order, fields[..|fields| - 1]) + (if dispute.Some? then [dispute.value] else [])
  }

  /** The summary after the given fields, one at a time. */
  function Reported(
    s: Summary, before: map<Field, Cell>, written: map<Field, Cell>, source: Source, order: seq<Source>,
    fields: seq<Field>): Summary
    requires forall f :: f in fields ==> f in written
  {
    if fields == [] then s
    else
      var f := fields[|fields| - 1];
      Note(
        Reported(s, before, written, source, order, fields[..|fields| - 1]),
        DisputeAt(before, f, written[f], source, order))
  }

  lemma ReportedSnoc(
    s: Summary, before: map<Field, Cell>, written: map<Field, Cell>, source: Source, order: seq<Source>,
    fields: seq<Field>, i: nat)
    requires i < |fields| && forall f :: f in fields ==> f in written
    ensures Reported(s, before, written, source, order, fields[..i + 1])
      == Note(
        Reported(s, before, written, source, order, fields[..i]),
        DisputeAt(before, fields[i], written[fields[i]], source, order))
  {
    assert fields[..i + 1][..i] == fields[..i];
  }

  lemma {:induction false} ReportedCaps(
    s: Summary, before: map<Field, Cell>, written: map<Field, Cell>, source: Source, order: seq<Source>,
    fields: seq<Field>)
    requires forall f :: f in fields ==> f in written
    ensures var disputes := Disputes(before, written, source, order, fields);
      Reported(s, before, written, source, order, fields) == Summary(s.total + |disputes|, Capped(s.listed, disputes))
  {
    if fields != [] {
      var init, f := fields[..|fields| - 1], fields[|fields| - 1];
      ReportedCaps(s, before, written, source, order, init);
      var dispute := DisputeAt(before, f, written[f], source, order);
      if dispute.Some? {
        CappedSnoc(s.listed, Disputes(before, written, source, order, init), dispute.value);
      }
    }
  }

  predicate IsReported(disputes: seq<Dispute>, f: Field) {
    exists k :: 0 <= k < |disputes| && disputes[k].field == f
  }

  lemma IsReportedSnoc(disputes: seq<Dispute>, d: Dispute, f: Field)
    ensures IsReported(disputes + [d], f) <==> IsReported(disputes, f) || d.field == f
  {
    var all := disputes + [d];
    assert all[|disputes|] == d && forall k :: 0 <= k < |disputes| ==> all[k] == disputes[k];
  }

  /** The import disagrees with another source about a value that was there before. */
  predicate Disagrees(was: Cell, cell: Cell, source: Source) {
    && was.value != Missing && was.value != Text("") && was.value != cell.value
    && was.source != None && was.source != Some("") && was.source != Some(source)
  }

  /** A field is reported if and only if there is a snapshot of it with which the import disagrees. */
  lemma {:induction false} ReportedExactly(
    before: map<Field, Cell>, written: map<Field, Cell>, source: Source, order: seq<Source>, fields: seq<Field>,
    f: Field)
    requires forall g :: g in fields ==> g in written
    ensures IsReported(Disputes(before, written, source, order, fields), f) <==>
      f in fields && f in before && Disagrees(before[f], written[f], source)
    decreases |fields|
  {
    if fields != [] {
      var init, last := fields[..|fields| - 1], fields[|fields| - 1];
      assert fields == init + [last];
      ReportedExactly(before, written, source, order, init, f);
      assert f in fields <==> f in init || f == last;
      var rest := Disputes(before, written, source, order, init);
      var dispute := DisputeAt(before, last, written[last], source, order);
      assert dispute.Some? <==> last in before && Disagrees(before[last], written[last], source);
      if dispute.Some? { IsReportedSnoc(rest, dispute.value, f); } else { assert rest + [] == rest; }
    }
  }

  /** At most 200 disputes are listed, the first ones. */
  lemma ListHolds200(more: seq<Dispute>)
    ensures |more| <= 200 ==> Capped([], more) == more
    ensures |more| > 200 ==> Capped([], more) == more[..200]
  {
    assert [] + more == more;
    if |more| > 200 { assert [] + more[..200] == more[..200]; }
  }

  /** A dispute names the two sources, and the one it says was kept is the one the field names afterwards. */
  lemma DisputeNamesWinner(f: Field, was: Cell, cell: Cell, source: Source, order: seq<Source>)
    requires Conflicts(was, cell, source) && cell.source == Some(source)
    ensures var d, after := DisputeOver(f, was, source, order), Settle(was, cell, source, order);
      && d.field == f && after.source == Some(d.kept) && {d.kept, d.other} == {was.source.value, source}
      && (d.earlierKept <==> after == was) && (!d.earlierKept ==> after == cell)
  {
  }

  lemma CappedSnoc(listed: seq<Dispute>, more: seq<Dispute>, d: Dispute)
    ensures Capped(listed, more + [d])
         == if |Capped(listed, more)| < CONFLICT_LIMIT then Capped(listed, more) + [d] else Capped(listed, more)
  {
    if |listed| < CONFLICT_LIMIT && |more| >= CONFLICT_LIMIT - |listed| {
      var room := CONFLICT_LIMIT - |listed|;
      assert (more + [d])[..room] == more[..room];
    } else if |listed| < CONFLICT_LIMIT {
      assert listed + (more + [d]) == (listed + more) + [d];
    }
  }

  function CellIn(values: map<Field, Value>, sources: map<Field, Source>, f: Field): Cell {
    Cell(ValueIn(values, f), SourceIn(sources, f))
  }

  function ValueIn(m: map<Field, Value>, f: Field): Value { if f in m then m[f] else Missing }

  function SourceIn(m: map<Field, Source>, f: Field): Option<Source> { if f in m then Some(m[f]) else None }

  // ---------------------------------------------------------------- order does not matter

  /** The field after the given imports, in order, each importer writing its own text. */
  function ImportAll(steps: seq<Source>, texts: map<Source, string>, order: seq<Source>): Cell
    requires forall i :: 0 <= i < |steps| ==> steps[i] in texts
  {
    if steps == [] then Cell(Missing, None)
    else
      var s := steps[|steps| - 1];
      Import(ImportAll(steps[..|steps| - 1], texts, order), s, texts[s], order)
  }

  /** The highest-ranked importer seen. */
  function Best(steps: seq<Source>, order: seq<Source>): (b: Source)
    requires steps != []
    ensures b in steps && forall i :: 0 <= i < |steps| ==> Rank(b, order) <= Rank(steps[i], order)
  {
    var last := steps[|steps| - 1];
    if |steps| == 1 then last
    else
      var rest := Best(steps[..|steps| - 1], order);
      assert forall i :: 0 <= i < |steps| - 1 ==> steps[i] == steps[..|steps| - 1][i];
      if Rank(last, order) < Rank(rest, order) then last else rest
  }

  /** A run in which only the given importers write, each of them at least once when it is complete. */
  predicate RunOf(steps: seq<Source>, importers: set<Source>) {
    forall i :: 0 <= i < |steps| ==> steps[i] in importers
  }

  predicate CompleteRun(steps: seq<Source>, importers: set<Source>) {
    RunOf(steps, importers) && forall s :: s in importers ==> s in steps
  }

  /** The field as importer `w` wants it. */
  function Own(w: Source, texts: map<Source, string>): Cell
    requires w in texts
  {
    Cell(Text(texts[w]), Some(w))
  }

  predicate Above(w: Source, b: Source, texts: map<Source, string>, order: seq<Source>)
    requires w in texts && b in texts
  {
    texts[b] != texts[w] && Rank(w, order) < Rank(b, order)
  }

  /** `w` writes a text, outranks every other importer, and nobody else writes its text. */
  predicate Alone(w: Source, importers: set<Source>, texts: map<Source, string>, order: seq<Source>)
    requires w in texts && importers <= texts.Keys
  {
    texts[w] != "" && forall b :: b in importers && b != w ==> Above(w, b, texts, order)
  }

  /** A field that `w` has not written yet. */
  predicate Foreign(cell: Cell, w: Source, importers: set<Source>, texts: map<Source, string>)
    requires w in texts
  {
    && cell.value != Text(texts[w])
    && (cell.source.Some? ==> cell.source.value in importers && cell.source.value != w)
  }

  lemma ImportKeepsForeign(
    cell: Cell, s: Source, w: Source, importers: set<Source>, texts: map<Source, string>, order: seq<Source>)
    requires w in texts && importers <= texts.Keys && Alone(w, importers, texts, order)
    requires s in importers && s != w && Foreign(cell, w, importers, texts)
    ensures Foreign(Import(cell, s, texts[s], order), w, importers, texts)
  {
    assert Above(w, s, texts, order);
  }

  /** However often and in whatever order the importers run, and whatever texts and ranks the others share:
      once `w` has run the field holds its text and names it as the source. */
  lemma {:induction false} HighestRankedWins(
    steps: seq<Source>, w: Source, importers: set<Source>, texts: map<Source, string>, order: seq<Source>)
    requires importers <= texts.Keys && RunOf(steps, importers)
    requires w in importers && w != "" && Alone(w, importers, texts, order)
    ensures w in steps ==> ImportAll(steps, texts, order) == Own(w, texts)
    ensures w !in steps ==> Foreign(ImportAll(steps, texts, order), w, importers, texts)
    decreases |steps|
  {
    if steps != [] {
      var init, last := steps[..|steps| - 1], steps[|steps| - 1];
      assert steps == init + [last];
      HighestRankedWins(init, w, importers, texts, order);
      var cell := ImportAll(init, texts, order);
      if last != w {
        assert Above(w, last, texts, order);
        if w !in init { ImportKeepsForeign(cell, last, w, importers, texts, order); }
      } else if w !in init && cell.source.Some? {
        assert Above(w, cell.source.value, texts, order);
      }
    }
  }

  lemma TwoImports(a: Source, b: Source, texts: map<Source, string>, order: seq<Source>)
    requires a in texts && b in texts
    ensures ImportAll([a], texts, order) == Import(Cell(Missing, None), a, texts[a], order)
    ensures ImportAll([a, b], texts, order) == Import(ImportAll([a], texts, order), b, texts[b], order)
  {
    assert [a, b][..1] == [a] && [a][..0] == [];
  }

  /** Every run with `w` in it leaves the field to `w` if and only if `w` is alone: it writes a text, outranks
      all other importers and shares its text with none of them. */
  lemma WinnerExactly(w: Source, importers: set<Source>, texts: map<Source, string>, order: seq<Source>)
    requires importers <= texts.Keys && w in importers && w != ""
    ensures Alone(w, importers, texts, order) <==>
      forall steps :: RunOf(steps, importers) && w in steps ==> ImportAll(steps, texts, order) == Own(w, texts)
  {
    if Alone(w, importers, texts, order) {
      forall steps | RunOf(steps, importers) && w in steps ensures ImportAll(steps, texts, order) == Own(w, texts) {
        HighestRankedWins(steps, w, importers, texts, order);
      }
    } else if texts[w] == "" {
      TwoImports(w, w, texts, order);
      assert RunOf([w], importers) && w in [w] && ImportAll([w], texts, order) != Own(w, texts);
    } else {
      var b :| b in importers && b != w && !Above(w, b, texts, order);
      TwoImports(b, w, texts, order);
      TwoImports(w, b, texts, order);
      assert RunOf([b, w], importers) && w in [b, w] && RunOf([w, b], importers) && w in [w, b];
      assert ImportAll([b, w], texts, order) != Own(w, texts) || ImportAll([w, b], texts, order) != Own(w, texts);
    }
  }

  // ---------------------------------------------------------------- exactly when order does not matter

  lemma ImportAllSnoc(steps: seq<Source>, s: Source, texts: map<Source, string>, order: seq<Source>)
    requires s in texts && forall i :: 0 <= i < |steps| ==> steps[i] in texts
    ensures ImportAll(steps + [s], texts, order) == Import(ImportAll(steps, texts, order), s, texts[s], order)
  {
    assert (steps + [s])[..|steps|] == steps;
  }

  lemma {:induction false} SourceIsImporter(
    steps: seq<Source>, importers: set<Source>, texts: map<Source, string>, order: seq<Source>)
    requires importers <= texts.Keys && RunOf(steps, importers)
    ensures var source := ImportAll(steps, texts, order).source; source.Some? ==> source.value in importers
    decreases |steps|
  {
    if steps != [] {
      SourceIsImporter(steps[..|steps| - 1], importers, texts, order);
    }
  }

  /** An importer that nobody outranks always gets its text in. */
  lemma TopWrites(steps: seq<Source>, x: Source, importers: set<Source>, texts: map<Source, string>, order: seq<Source>)
    requires importers <= texts.Keys && RunOf(steps, importers) && x in importers
    requires forall s :: s in importers ==> Rank(x, order) <= Rank(s, order)
    ensures ImportAll(steps + [x], texts, order).value == Text(texts[x])
  {
    SourceIsImporter(steps, importers, texts, order);
    ImportAllSnoc(steps, x, texts, order);
  }

  lemma OwnStays(w: Source, s: Source, texts: map<Source, string>, order: seq<Source>)
    requires w in texts && s in texts && w != "" && texts[w] != ""
    requires texts[s] == texts[w] || Rank(w, order) < Rank(s, order)
    ensures Import(Own(w, texts), s, texts[s], order) == Own(w, texts)
  {
  }

  /** Nobody writes over `w` who ranks below it or writes the same. */
  lemma {:induction false} FirstStays(
    steps: seq<Source>, w: Source, importers: set<Source>, texts: map<Source, string>, order: seq<Source>)
    requires importers <= texts.Keys && RunOf(steps, importers) && w in texts && w != "" && texts[w] != ""
    requires forall s :: s in importers ==> texts[s] == texts[w] || Rank(w, order) < Rank(s, order)
    ensures ImportAll([w] + steps, texts, order) == Own(w, texts)
    decreases |steps|
  {
    if steps == [] {
      TwoImports(w, w, texts, order);
      assert [w] + steps == [w];
    } else {
      var n := |steps| - 1;
      var init, s := steps[..n], steps[n];
      assert [w] + steps == ([w] + init) + [s];
      FirstStays(init, w, importers, texts, order);
      ImportAllSnoc([w] + init, s, texts, order);
      OwnStays(w, s, texts, order);
    }
  }

  /** When `b` wrote the text of `w` before, `w` is not recorded, nor does it get recorded without writing again. */
  lemma {:induction false} SecondIsNotRecorded(
    steps: seq<Source>, b: Source, w: Source, others: set<Source>, texts: map<Source, string>, order: seq<Source>)
    requires others <= texts.Keys && RunOf(steps, others) && w !in others
    requires b in texts && w in texts && b != w && texts[b] == texts[w] != ""
    ensures ImportAll([b, w] + steps, texts, order).source != Some(w)
    decreases |steps|
  {
    if steps == [] {
      TwoImports(b, w, texts, order);
      assert [b, w] + steps == [b, w];
    } else {
      var n := |steps| - 1;
      SecondIsNotRecorded(steps[..n], b, w, others, texts, order);
      ImportAllSnoc([b, w] + steps[..n], steps[n], texts, order);
      assert [b, w] + steps == ([b, w] + steps[..n]) + [steps[n]];
    }
  }

  /** All members of the set, one after the other. */
  ghost function Listing(importers: set<Source>): (r: seq<Source>)
    ensures CompleteRun(r, importers)
  {
    if importers == {} then []
    else
      var s :| s in importers;
      [s] + Listing(importers - {s})
  }

  ghost predicate OrderMatters(importers: set<Source>, texts: map<Source, string>, order: seq<Source>)
    requires importers <= texts.Keys
  {
    exists a, b :: CompleteRun(a, importers) && CompleteRun(b, importers)
      && ImportAll(a, texts, order) != ImportAll(b, texts, order)
  }

  lemma TopImporter(importers: set<Source>, order: seq<Source>) returns (w: Source)
    requires importers != {}
    ensures w in importers && forall s :: s in importers ==> Rank(w, order) <= Rank(s, order)
  {
    var all := Listing(importers);
    var x :| x in importers;
    assert x in all;
    w := Best(all, order);
    forall s | s in importers ensures Rank(w, order) <= Rank(s, order) {
      assert s in all;
    }
  }

  lemma TiedTopsDisagree(
    w: Source, t: Source, importers: set<Source>, texts: map<Source, string>, order: seq<Source>)
    requires importers <= texts.Keys && w in importers && t in importers && texts[w] != texts[t]
    requires forall s :: s in importers ==> Rank(w, order) <= Rank(s, order) && Rank(t, order) <= Rank(s, order)
    ensures OrderMatters(importers, texts, order)
  {
    var all := Listing(importers);
    TopWrites(all, w, importers, texts, order);
    TopWrites(all, t, importers, texts, order);
    assert CompleteRun(all + [w], importers) && CompleteRun(all + [t], importers);
  }

  lemma SharedTextDisagrees(
    w: Source, b: Source, importers: set<Source>, texts: map<Source, string>, order: seq<Source>)
    requires importers <= texts.Keys && w in importers && b in importers
    requires b != w && w != "" && texts[b] == texts[w] != ""
    requires forall s :: s in importers ==> texts[s] == texts[w] || Rank(w, order) < Rank(s, order)
    ensures OrderMatters(importers, texts, order)
  {
    var all, others := Listing(importers), Listing(importers - {w});
    FirstStays(all, w, importers, texts, order);
    SecondIsNotRecorded(others, b, w, importers - {w}, texts, order);
    assert CompleteRun([w] + all, importers);
    WithoutIsComplete(b, w, others, importers);
  }

  lemma WithoutIsComplete(b: Source, w: Source, others: seq<Source>, importers: set<Source>)
    requires b in importers && w in importers && CompleteRun(others, importers - {w})
    ensures CompleteRun([b, w] + others, importers)
  {
    var steps := [b, w] + others;
    forall i | 0 <= i < |steps| ensures steps[i] in importers {
      if i >= 2 { assert steps[i] == others[i - 2]; }
    }
    forall s | s in importers ensures s in steps {
      assert steps[1] == w;
    }
  }

  lemma AloneDecides(w: Source, importers: set<Source>, texts: map<Source, string>, order: seq<Source>)
    requires importers <= texts.Keys && w in importers && w != "" && Alone(w, importers, texts, order)
    ensures !OrderMatters(importers, texts, order)
  {
    forall a | CompleteRun(a, importers) ensures ImportAll(a, texts, order) == Own(w, texts) {
      HighestRankedWins(a, w, importers, texts, order);
    }
  }

  /** When `w` is on top and writes nothing, the last importer with a text decides. */
  lemma EmptyTopDisagrees(
    w: Source, b: Source, importers: set<Source>, texts: map<Source, string>, order: seq<Source>)
    requires importers <= texts.Keys && w in importers && b in importers && texts[w] == "" && texts[b] != ""
    requires forall s :: s in importers ==> Rank(w, order) <= Rank(s, order)
    ensures OrderMatters(importers, texts, order)
  {
    var all := Listing(importers);
    TopWrites(all, w, importers, texts, order);
    ImportAllSnoc(all + [w], b, texts, order);
    assert ImportAll(all + [w] + [b], texts, order).value == Text(texts[b]);
    assert CompleteRun(all + [w], importers) && CompleteRun(all + [w] + [b], importers);
  }

  lemma TopNotAlone(w: Source, importers: set<Source>, texts: map<Source, string>, order: seq<Source>)
    requires importers <= texts.Keys && w in importers && w != ""
    requires forall s :: s in importers ==> Rank(w, order) <= Rank(s, order)
    requires !Alone(w, importers, texts, order) && !AllEmpty(importers, texts)
    ensures OrderMatters(importers, texts, order)
  {
    if texts[w] == "" {
      var b :| b in importers && texts[b] != "";
      EmptyTopDisagrees(w, b, importers, texts, order);
    } else if t :| t in importers && Rank(t, order) == Rank(w, order) && texts[t] != texts[w] {
      TiedTopsDisagree(w, t, importers, texts, order);
    } else {
      var b :| b in importers && b != w && !Above(w, b, texts, order);
      assert texts[b] == texts[w];
      SharedTextDisagrees(w, b, importers, texts, order);
    }
  }

  predicate AllEmpty(importers: set<Source>, texts: map<Source, string>)
    requires importers <= texts.Keys
  {
    forall s :: s in importers ==> texts[s] == ""
  }

  lemma {:induction false} NothingIsWritten(
    steps: seq<Source>, importers: set<Source>, texts: map<Source, string>, order: seq<Source>)
    requires importers <= texts.Keys && RunOf(steps, importers) && AllEmpty(importers, texts)
    ensures ImportAll(steps, texts, order) == if steps == [] then Cell(Missing, None) else Cell(Text(""), None)
    decreases |steps|
  {
    if steps != [] {
      NothingIsWritten(steps[..|steps| - 1], importers, texts, order);
    }
  }

  lemma EmptyTextsAgree(importers: set<Source>, texts: map<Source, string>, order: seq<Source>)
    requires importers != {} && importers <= texts.Keys && AllEmpty(importers, texts)
    ensures !OrderMatters(importers, texts, order)
  {
    var s :| s in importers;
    forall a | CompleteRun(a, importers) ensures ImportAll(a, texts, order) == Cell(Text(""), None) {
      assert s in a;
      NothingIsWritten(a, importers, texts, order);
    }
  }

  /** Arbitration is order-independent if and only if some importer is alone or none has anything to write: all
      runs in which every importer writes at least once end alike exactly when one importer outranks the others
      and shares its text with none, or all texts are empty. */
  lemma ArbitrationIsOrderIndependent(importers: set<Source>, texts: map<Source, string>, order: seq<Source>)
    requires importers != {} && importers <= texts.Keys && "" !in importers
    ensures !OrderMatters(importers, texts, order) <==>
      (exists w :: w in importers && Alone(w, importers, texts, order)) || AllEmpty(importers, texts)
  {
    if w :| w in importers && Alone(w, importers, texts, order) {
      AloneDecides(w, importers, texts, order);
    } else if AllEmpty(importers, texts) {
      EmptyTextsAgree(importers, texts, order);
    } else {
      var w := TopImporter(importers, order);
      TopNotAlone(w, importers, texts, order);
    }
  }

  /** When two importers write the same text the recorded source is not updated, and the outcome of a
      third import then depends on the order of the first two. */
  lemma EqualTextsDependOnOrder()
    ensures var texts := map["manual" := "x", "netbox" := "x", "csv" := "y"];
      && ImportAll(["netbox", "manual", "csv"], texts, DEFAULT_PRECEDENCE) == Cell(Text("y"), Some("csv"))
      && ImportAll(["manual", "netbox", "csv"], texts, DEFAULT_PRECEDENCE) == Cell(Text("x"), Some("manual"))
  {
    var texts := map["manual" := "x", "netbox" := "x", "csv" := "y"];
    DefaultRanks();
    FirstOfTwoIsRecorded("netbox", "manual", "csv", texts, DEFAULT_PRECEDENCE);
    FirstOfTwoIsRecorded("manual", "netbox", "csv", texts, DEFAULT_PRECEDENCE);
  }

  lemma DefaultRanks()
    ensures Rank("manual", DEFAULT_PRECEDENCE) == 0
    ensures Rank("csv", DEFAULT_PRECEDENCE) == 1
    ensures Rank("snipeit", DEFAULT_PRECEDENCE) == 2
    ensures Rank("netbox", DEFAULT_PRECEDENCE) == 3
  {
    RankAt("manual", DEFAULT_PRECEDENCE, 0);
    RankAt("csv", DEFAULT_PRECEDENCE, 1);
    RankAt("snipeit", DEFAULT_PRECEDENCE, 2);
    RankAt("netbox", DEFAULT_PRECEDENCE, 3);
  }

  /** Of two importers with the same text the first is recorded, and stands against the third with its rank. */
  lemma FirstOfTwoIsRecorded(a: Source, b: Source, c: Source, texts: map<Source, string>, order: seq<Source>)
    requires a in texts && b in texts && c in texts && a != "" && a != c
    requires texts[a] == texts[b] != "" && texts[c] != "" && texts[c] != texts[a]
    ensures ImportAll([a, b, c], texts, order)
      == if Rank(a, order) < Rank(c, order) then Own(a, texts) else Own(c, texts)
  {
    ThreeImports(a, b, c, texts, order);
  }

  lemma ThreeImports(a: Source, b: Source, c: Source, texts: map<Source, string>, order: seq<Source>)
    requires a in texts && b in texts && c in texts
    ensures ImportAll([a, b, c], texts, order)
      == Import(Import(Import(Cell(Missing, None), a, texts[a], order), b, texts[b], order), c, texts[c], order)
  {
    assert [a, b, c][..2] == [a, b] && [a, b][..1] == [a] && [a][..0] == [];
    assert ImportAll([a], texts, order) == Import(ImportAll([], texts, order), a, texts[a], order);
    assert ImportAll([a, b], texts, order) == Import(ImportAll([a], texts, order), b, texts[b], order);
  }

  lemma {:induction false} RankAt(s: Source, order: seq<Source>, i: nat)
    requires i < |order| && order[i] == s && forall j :: 0 <= j < i ==> order[j] != s
    ensures Rank(s, order) == i
    decreases i
  {
    if i > 0 { RankAt(s, order[1..], i - 1); }
  }
}
