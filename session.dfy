/** The session bookkeeping around the classifier (phonevalidator.py:
    validated_numbers, summary_stats, validate_number, validate_from_file,
    update_stats and export_validated), with the widgets, dialogs and files
    peeled off: inputs arrive as strings and already-parsed rows, and what
    the source displays or writes is returned. */
module ValidatorSession {
  import opened GhanaNumbers

  /** A registry entry: (formatted number, carrier). */
  type Entry = (string, string)

  // ---------------------------------------------------------------------
  // The counters a registry implies

  /** `d.get(k, 0)`. */
  function Get(m: map<string, nat>, k: string): nat {
    if k in m then m[k] else 0
  }

  /** The `networks` dictionary after one `d[c] = d.get(c, 0) + 1` per entry
      of `reg`, in order. */
  function Tally(reg: seq<Entry>): map<string, nat> {
    if reg == [] then map[]
    else
      var t := Tally(reg[..|reg| - 1]);
      var c := reg[|reg| - 1].1;
      t[c := Get(t, c) + 1]
  }

  /** The key order of that dictionary: a Python dict iterates in insertion
      order, and a key is inserted on the first increment only. */
  function FirstAppearance(reg: seq<Entry>): seq<string> {
    if reg == [] then []
    else
      var o := FirstAppearance(reg[..|reg| - 1]);
      var c := reg[|reg| - 1].1;
      if c in o then o else o + [c]
  }

  /** The carriers of a registry, one per entry. */
  function CarrierColumn(reg: seq<Entry>): (cs: seq<string>)
    ensures |cs| == |reg| && forall i | 0 <= i < |reg| :: cs[i] == reg[i].1
  {
    seq(|reg|, i requires 0 <= i < |reg| => reg[i].1)
  }

  predicate Distinct(s: seq<string>) {
    forall i, j | 0 <= i < j < |s| :: s[i] != s[j]
  }

  /** The sum of the counts of the keys in `order`. */
  function SumOver(order: seq<string>, m: map<string, nat>): nat {
    if order == [] then 0
    else SumOver(order[..|order| - 1], m) + Get(m, order[|order| - 1])
  }

  /** The carriers listed are exactly those of the registry, each once, and
      they are exactly the keys of the tally. */
  lemma {:induction false} FirstAppearanceCarriers(reg: seq<Entry>)
    ensures Distinct(FirstAppearance(reg))
    ensures forall c :: c in FirstAppearance(reg) <==> c in CarrierColumn(reg)
    ensures forall c :: c in Tally(reg) <==> c in FirstAppearance(reg)
  {
    if reg != [] {
      var front := reg[..|reg| - 1];
      FirstAppearanceCarriers(front);
      assert CarrierColumn(reg) == CarrierColumn(front) + [reg[|reg| - 1].1];
    }
  }

  /** Each carrier's count in the tally is the number of registry entries
      naming it. */
  lemma {:induction false} TallyCounts(reg: seq<Entry>, c: string)
    ensures Get(Tally(reg), c) == multiset(CarrierColumn(reg))[c]
  {
    if reg != [] {
      var front := reg[..|reg| - 1];
      TallyCounts(front, c);
      assert CarrierColumn(reg) == CarrierColumn(front) + [reg[|reg| - 1].1];
    }
  }

  lemma {:induction false} SumOverBump(order: seq<string>, m: map<string, nat>, c: string)
    requires Distinct(order)
    ensures SumOver(order, m[c := Get(m, c) + 1]) == SumOver(order, m) + (if c in order then 1 else 0)
  {
    if order != [] {
      var front := order[..|order| - 1];
      assert c in order <==> c in front || c == order[|order| - 1];
      assert order[|order| - 1] !in front;
      SumOverBump(front, m, c);
    }
  }

  lemma {:induction false} SumOverFresh(order: seq<string>, m: map<string, nat>, c: string, n: nat)
    requires c !in order
    ensures SumOver(order, m[c := n]) == SumOver(order, m)
  {
    if order != [] {
      SumOverFresh(order[..|order| - 1], m, c, n);
    }
  }

  /** Appending one entry is one `d[c] = d.get(c, 0) + 1`, which inserts
      the carrier at the end of the key order when it is new. */
  lemma Extend(reg: seq<Entry>, e: Entry)
    ensures Tally(reg + [e]) == Tally(reg)[e.1 := Get(Tally(reg), e.1) + 1]
    ensures FirstAppearance(reg + [e]) ==
      if e.1 in Tally(reg) then FirstAppearance(reg) else FirstAppearance(reg) + [e.1]
  {
  }

  /** The counts listed, in carrier order, add up to the number of entries:
      sum(networks.values()) == len(validated_numbers). */
  lemma {:induction false} TallySum(reg: seq<Entry>)
    ensures SumOver(FirstAppearance(reg), Tally(reg)) == |reg|
  {
    if reg != [] {
      var front, e := reg[..|reg| - 1], reg[|reg| - 1];
      assert reg == front + [e];
      TallySum(front);
      Extend(front, e);
      FirstAppearanceCarriers(front);
      var o, t, c := FirstAppearance(front), Tally(front), e.1;
      assert Tally(reg) == t[c := Get(t, c) + 1];
      assert FirstAppearance(reg) == if c in o then o else o + [c];
      if c in o {
        SumOverBump(o, t, c);
      } else {
        SumOverFresh(o, t, c, Get(t, c) + 1);
        assert (o + [c])[..|o|] == o;
      }
    }
  }

  // ---------------------------------------------------------------------
  // Batch input

  /** The numbers a batch classifies: the first field of every non-empty row,
      in row order. */
  function BatchInputs(rows: seq<seq<string>>): (xs: seq<string>)
    ensures |xs| <= |rows|
  {
    if rows == [] then []
    else
      var last := rows[|rows| - 1];
      BatchInputs(rows[..|rows| - 1]) + (if last == [] then [] else [last[0]])
  }

  /** The registry entries classifying `xs` in order appends. */
  function AcceptedEntries(xs: seq<string>): (es: seq<Entry>)
    ensures |es| <= |xs|
  {
    if xs == [] then []
    else
      var v := Classify(xs[|xs| - 1]);
      AcceptedEntries(xs[..|xs| - 1]) + (if v.valid then [(v.formatted, v.carrier.value)] else [])
  }

  /** Row batches compose: the inputs of two batches in sequence are the
      inputs of the first followed by those of the second ... */
  lemma {:induction false} BatchInputsAppend(a: seq<seq<string>>, b: seq<seq<string>>)
    ensures BatchInputs(a + b) == BatchInputs(a) + BatchInputs(b)
  {
    if b == [] {
      assert a + b == a;
    } else {
      assert (a + b)[..|a + b| - 1] == a + b[..|b| - 1];
      BatchInputsAppend(a, b[..|b| - 1]);
    }
  }

  /** ... and so do the entries they add to the registry. */
  lemma {:induction false} AcceptedEntriesAppend(xs: seq<string>, ys: seq<string>)
    ensures AcceptedEntries(xs + ys) == AcceptedEntries(xs) + AcceptedEntries(ys)
  {
    if ys == [] {
      assert xs + ys == xs;
    } else {
      assert (xs + ys)[..|xs + ys| - 1] == xs + ys[..|ys| - 1];
      AcceptedEntriesAppend(xs, ys[..|ys| - 1]);
    }
  }

  /** One more row of a batch adds that row's inputs and entries. */
  lemma BatchStep(rows: seq<seq<string>>, i: nat)
    requires i < |rows|
    ensures BatchInputs(rows[..i + 1]) == BatchInputs(rows[..i]) + BatchInputs([rows[i]])
    ensures AcceptedEntries(BatchInputs(rows[..i + 1])) ==
      AcceptedEntries(BatchInputs(rows[..i])) + AcceptedEntries(BatchInputs([rows[i]]))
  {
    assert rows[..i + 1] == rows[..i] + [rows[i]];
    BatchInputsAppend(rows[..i], [rows[i]]);
    AcceptedEntriesAppend(BatchInputs(rows[..i]), BatchInputs([rows[i]]));
  }

  /** A batch of one row: nothing for an empty row, otherwise the
      classification of its first field. */
  lemma SingleRow(row: seq<string>)
    ensures BatchInputs([row]) == if row == [] then [] else [row[0]]
    ensures row != [] ==>
      (var v := Classify(row[0]);
       AcceptedEntries([row[0]]) == if v.valid then [(v.formatted, v.carrier.value)] else [])
  {
  }

  lemma AppendAssoc<T>(a: seq<T>, b: seq<T>, c: seq<T>)
    ensures (a + b) + c == a + (b + c)
  {
  }

  /** An entry as an accepted classification leaves it: re-classifying the
      formatted number accepts it with the same carrier. */
  predicate IsAcceptedEntry(e: Entry) {
    Classify(e.0).valid && Classify(e.0).carrier == Some(e.1)
  }

  /** Every entry a batch adds is one the classifier accepts again, with the
      same carrier. */
  lemma {:induction false} AcceptedEntriesReclassify(xs: seq<string>)
    ensures forall i | 0 <= i < |AcceptedEntries(xs)| :: IsAcceptedEntry(AcceptedEntries(xs)[i])
  {
    if xs != [] {
      var x := xs[|xs| - 1];
      AcceptedEntriesReclassify(xs[..|xs| - 1]);
      if Classify(x).valid {
        ReclassifyFormatted(x);
      }
    }
  }

  // ---------------------------------------------------------------------
  // Report and export

  /** A natural number in decimal, as an f-string prints it. */
  function Decimal(n: nat): (s: string)
    ensures |s| > 0 && AllDigits(s)
  {
    if n < 10 then [DigitChar(n)] else Decimal(n / 10) + [DigitChar(n % 10)]
  }

  function DigitChar(d: nat): char
    requires d < 10
  {
    "0123456789"[d]
  }

  /** Reads a string of digits back as a number: the inverse of Decimal. */
  function ParseDecimal(s: string): nat
    requires AllDigits(s)
  {
    if s == [] then 0
    else ParseDecimal(s[..|s| - 1]) * 10 + ((s[|s| - 1] as int) - ('0' as int))
  }

  lemma {:induction false} DecimalRoundTrip(n: nat)
    ensures ParseDecimal(Decimal(n)) == n
  {
    if n >= 10 {
      DecimalRoundTrip(n / 10);
      assert Decimal(n)[..|Decimal(n)| - 1] == Decimal(n / 10);
    }
  }

  /** The first line of the statistics text (ASCII labels for the source's
      emoji). */
  function HeaderLine(total: nat, valid: nat, invalid: nat): string {
    "Total: " + Decimal(total) + " | Valid: " + Decimal(valid) + " | Invalid: " + Decimal(invalid) + "\n"
  }

  /** One line per carrier of the statistics text. */
  function CarrierLine(carrier: string, count: nat): string {
    " - " + carrier + ": " + Decimal(count) + "\n"
  }

  /** The statistics text as lines: the header, then one line per carrier in
      the given order with its count. */
  function ReportLines(total: nat, valid: nat, invalid: nat, order: seq<string>, networks: map<string, nat>): (ls: seq<string>)
    ensures |ls| == |order| + 1
    ensures ls[0] == HeaderLine(total, valid, invalid)
    ensures forall k | 0 <= k < |order| :: ls[k + 1] == CarrierLine(order[k], Get(networks, order[k]))
  {
    [HeaderLine(total, valid, invalid)] + seq(|order|, k requires 0 <= k < |order| => CarrierLine(order[k], Get(networks, order[k])))
  }

  /** The lines joined into one text. */
  function Join(ls: seq<string>): string {
    if ls == [] then "" else Join(ls[..|ls| - 1]) + ls[|ls| - 1]
  }

  const ExportHeader: seq<string> := ["Phone Number", "Network"]

  // ---------------------------------------------------------------------
  // The session

  /** validated_numbers and summary_stats, owned by one session object. */
  class Session {
    var total: nat
    var valid: nat
    var invalid: nat
    /** summary_stats["networks"]: counts by carrier ... */
    var networks: map<string, nat>
    /** ... and its insertion order. */
    var carrierOrder: seq<string>
    /** validated_numbers. */
    var registry: seq<Entry>

    /** What holds of a session that started at zero and was only touched
        by the operations below. */
    ghost predicate Valid()
      reads this
    {
      total == valid + invalid &&
      valid == |registry| &&
      networks == Tally(registry) &&
      carrierOrder == FirstAppearance(registry)
    }

    /** The zero state at process start. */
    constructor ()
      ensures Valid()
      ensures total == 0 && valid == 0 && invalid == 0
      ensures networks == map[] && carrierOrder == [] && registry == []
    {
      total, valid, invalid := 0, 0, 0;
      networks, carrierOrder, registry := map[], [], [];
    }

    /** validate_number on one input: the classification the label shows,
        with the counters and the registry updated. */
    method Validate(number: string) returns (v: Verdict)
      requires Valid()
      modifies this
      ensures v == Classify(number)
      ensures Valid()
      ensures total == old(total) + 1
      ensures v.valid ==> valid == old(valid) + 1 && invalid == old(invalid)
      ensures !v.valid ==> valid == old(valid) && invalid == old(invalid) + 1
      ensures registry == old(registry) + (if v.valid then [(v.formatted, v.carrier.value)] else [])
      ensures v.valid ==> networks == old(networks)[v.carrier.value := Get(old(networks), v.carrier.value) + 1]
      ensures v.valid ==>
        (carrierOrder == if v.carrier.value in old(networks) then old(carrierOrder) else old(carrierOrder) + [v.carrier.value])
      ensures !v.valid ==> networks == old(networks) && carrierOrder == old(carrierOrder)
    {
      v := Classify(number);
      if v.valid {
        var carrier := v.carrier.value;
        Extend(registry, (v.formatted, carrier));
        registry := registry + [(v.formatted, carrier)];
        total := total + 1;
        valid := valid + 1;
        if carrier !in networks {
          carrierOrder := carrierOrder + [carrier];
        }
        networks := networks[carrier := Get(networks, carrier) + 1];
      } else {
        total := total + 1;
        invalid := invalid + 1;
      }
    }

    /** validate_from_file on already-parsed rows: every non-empty row's first
        field is classified and recorded as a single validation would be;
        empty rows change nothing. */
    method ValidateBatch(rows: seq<seq<string>>)
      requires Valid()
      modifies this
      ensures Valid()
      ensures total == old(total) + |BatchInputs(rows)|
      ensures registry == old(registry) + AcceptedEntries(BatchInputs(rows))
      ensures valid == old(valid) + |AcceptedEntries(BatchInputs(rows))|
      ensures invalid == old(invalid) + |BatchInputs(rows)| - |AcceptedEntries(BatchInputs(rows))|
    {
      ghost var total0, valid0, registry0 := total, valid, registry;
      var i := 0;
      while i < |rows|
        invariant 0 <= i <= |rows|
        invariant Valid()
        invariant total == total0 + |BatchInputs(rows[..i])|
        invariant registry == registry0 + AcceptedEntries(BatchInputs(rows[..i]))
        invariant valid == valid0 + |AcceptedEntries(BatchInputs(rows[..i]))|
      {
        ValidateRow(rows[i]);
        BatchStep(rows, i);
        AppendAssoc(registry0, AcceptedEntries(BatchInputs(rows[..i])), AcceptedEntries(BatchInputs([rows[i]])));
        i := i + 1;
      }
      assert rows[..i] == rows;
    }

    /** The body of validate_from_file's loop: an empty row is skipped,
        otherwise its first field is classified and recorded. */
    method ValidateRow(row: seq<string>)
      requires Valid()
      modifies this
      ensures Valid()
      ensures total == old(total) + |BatchInputs([row])|
      ensures registry == old(registry) + AcceptedEntries(BatchInputs([row]))
      ensures valid == old(valid) + |AcceptedEntries(BatchInputs([row]))|
    {
      SingleRow(row);
      if row != [] {
        var _ := Validate(row[0]);
      }
    }

    /** update_stats: the statistics text, built line by line over the
        carriers in insertion order. */
    method Report() returns (text: string)
      ensures text == Join(ReportLines(total, valid, invalid, carrierOrder, networks))
    {
      ghost var lines := ReportLines(total, valid, invalid, carrierOrder, networks);
      text := HeaderLine(total, valid, invalid);
      var i := 0;
      while i < |carrierOrder|
        invariant 0 <= i <= |carrierOrder|
        invariant text == Join(lines[..i + 1])
      {
        var carrier := carrierOrder[i];
        text := text + CarrierLine(carrier, Get(networks, carrier));
        i := i + 1;
        assert lines[..i + 1][..i] == lines[..i];
      }
      assert lines[..i + 1] == lines;
    }

    /** export_validated without the file: None where the source refuses
        ("No validated numbers to export."), otherwise the rows written, a
        header and then one row per registry entry in insertion order. */
    method Export() returns (rows: Option<seq<seq<string>>>)
      ensures rows.None? <==> registry == []
      ensures rows.Some? ==>
        |rows.value| == |registry| + 1 &&
        rows.value[0] == ExportHeader &&
        forall i | 0 <= i < |registry| :: rows.value[i + 1] == [registry[i].0, registry[i].1]
    {
      if registry == [] {
        return None;
      }
      var out := [ExportHeader];
      var i := 0;
      while i < |registry|
        invariant 0 <= i <= |registry|
        invariant |out| == i + 1 && out[0] == ExportHeader
        invariant forall k | 0 <= k < i :: out[k + 1] == [registry[k].0, registry[k].1]
      {
        var (number, network) := registry[i];
        out := out + [[number, network]];
        i := i + 1;
      }
      rows := Some(out);
    }
  }

  // ---------------------------------------------------------------------
  // Properties of a valid session

  /** The report lists every carrier of the registry once, in order of first
      appearance, each with the number of registry entries naming it. */
  lemma ReportCountsEntries(s: Session)
    requires s.Valid()
    ensures var ls := ReportLines(s.total, s.valid, s.invalid, s.carrierOrder, s.networks);
      |ls| == |s.carrierOrder| + 1 &&
      Distinct(s.carrierOrder) &&
      (forall c :: c in s.carrierOrder <==> c in CarrierColumn(s.registry)) &&
      forall k | 0 <= k < |s.carrierOrder| ::
        ls[k + 1] == CarrierLine(s.carrierOrder[k], multiset(CarrierColumn(s.registry))[s.carrierOrder[k]])
  {
    FirstAppearanceCarriers(s.registry);
    forall c {
      TallyCounts(s.registry, c);
    }
  }

  /** The counters agree: total == valid + invalid, and the per-carrier
      counts add up to the valid count and to the registry length. */
  lemma CountersAgree(s: Session)
    requires s.Valid()
    ensures s.total == s.valid + s.invalid
    ensures SumOver(s.carrierOrder, s.networks) == s.valid == |s.registry|
  {
    TallySum(s.registry);
  }
}
