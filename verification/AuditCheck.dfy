/** The verdict on an audit: an index over the exceptions, a scan over the
    vulnerabilities, and the specification the two of them refine
    (tools/check_pnpm_audit_exceptions.py:114-243). */
module AuditCheck {
  import opened Wrappers
  import opened AuditFile

  /** What the script takes from its library: lower-casing and ISO dates, a date
      being a day number. */
  datatype Env = Env(lower: string -> string, parseDate: string -> Option<int>)

  /** One yielded tuple; a missing part is None. */
  datatype Vuln = Vuln(name: Option<string>, severity: Option<string>, advisory: Option<string>)

  type Key = (string, string)

  datatype Entry = Entry(raw: Fields, severity: string, expiresOn: int)

  function OrEmpty(v: Option<string>): string {
    if v.Some? then v.value else ""
  }

  function NormalizeSeverity(env: Env, severity: string): string {
    env.lower(Strip(severity))
  }

  function NormalizePackage(name: string): string {
    Strip(name)
  }

  function NormalizeAdvisory(env: Env, advisory: string): string {
    env.lower(Strip(advisory))
  }

  // ------------------------------------------------------------------ exceptions

  function Field(e: Fields, name: string): string {
    if name in e then e[name] else ""
  }

  predicate Complete(e: Fields) {
    && Field(e, "package") != "" && Field(e, "advisory") != "" && Field(e, "severity") != ""
    && Field(e, "mitigation") != "" && Field(e, "expires_on") != ""
  }

  function KeyOf(env: Env, e: Fields): Key {
    (NormalizePackage(Field(e, "package")), NormalizeAdvisory(env, Field(e, "advisory")))
  }

  function SeverityOf(env: Env, e: Fields): string {
    NormalizeSeverity(env, Field(e, "severity"))
  }

  function DateOf(env: Env, e: Fields): Option<int> {
    env.parseDate(Field(e, "expires_on"))
  }

  predicate Usable(env: Env, e: Fields) {
    Complete(e) && DateOf(env, e).Some? && KeyOf(env, e).0 != "" && KeyOf(env, e).1 != ""
  }

  function EntryOf(env: Env, e: Fields): Entry
    requires DateOf(env, e).Some?
  {
    Entry(e, SeverityOf(env, e), DateOf(env, e).value)
  }

  /** Every exception is usable and no two have the same key. */
  ghost predicate Lawful(env: Env, xs: seq<Fields>) {
    && (forall i :: 0 <= i < |xs| ==> Usable(env, xs[i]))
    && forall i, j :: 0 <= i < j < |xs| ==> KeyOf(env, xs[i]) != KeyOf(env, xs[j])
  }

  /** A usable exception with key k. */
  predicate Keyed(env: Env, e: Fields, k: Key) {
    Usable(env, e) && KeyOf(env, e) == k
  }

  /** Exception i is the first usable one with its key. */
  ghost predicate Opens(env: Env, xs: seq<Fields>, i: nat)
    requires i < |xs|
  {
    Usable(env, xs[i]) && forall j :: 0 <= j < i ==> !Keyed(env, xs[j], KeyOf(env, xs[i]))
  }

  ghost predicate KeysAre(env: Env, xs: seq<Fields>, index: map<Key, Entry>) {
    forall k :: k in index <==> exists i :: 0 <= i < |xs| && Keyed(env, xs[i], k)
  }

  predicate Holds(env: Env, index: map<Key, Entry>, e: Fields) {
    KeyOf(env, e) in index && DateOf(env, e).Some? && index[KeyOf(env, e)] == EntryOf(env, e)
  }

  ghost predicate FirstsAre(env: Env, xs: seq<Fields>, index: map<Key, Entry>) {
    forall i :: 0 <= i < |xs| && Opens(env, xs, i) ==> Holds(env, index, xs[i])
  }

  /** The index holds the first usable exception of each key, and nothing else. */
  ghost predicate Indexes(env: Env, xs: seq<Fields>, index: map<Key, Entry>) {
    KeysAre(env, xs, index) && FirstsAre(env, xs, index)
  }

  datatype Finding =
    | Incomplete(e: Fields) | BadDate(e: Fields) | NoKey(e: Fields) | Duplicate(e: Fields)
    | NoAdvisory(v: Vuln) | Mismatch(v: Vuln)

  lemma KeysGrow(env: Env, xs: seq<Fields>, e: Fields, index: map<Key, Entry>, grown: map<Key, Entry>)
    requires KeysAre(env, xs, index)
    requires forall k :: k in grown <==> k in index || Keyed(env, e, k)
    ensures KeysAre(env, xs + [e], grown)
  {
    var ys := xs + [e];
    assert forall i :: 0 <= i < |xs| ==> ys[i] == xs[i];
    assert ys[|xs|] == e;
    forall k ensures k in grown <==> exists i :: 0 <= i < |ys| && Keyed(env, ys[i], k) {
      if k in index {
        var i :| 0 <= i < |xs| && Keyed(env, xs[i], k);
        assert Keyed(env, ys[i], k);
      }
    }
  }

  lemma OpensKept(env: Env, xs: seq<Fields>, e: Fields, i: nat)
    requires i < |xs|
    ensures Opens(env, xs + [e], i) <==> Opens(env, xs, i)
  {
    assert forall j :: 0 <= j <= i ==> (xs + [e])[j] == xs[j];
  }

  lemma OpensWhenNew(env: Env, xs: seq<Fields>, e: Fields, index: map<Key, Entry>)
    requires KeysAre(env, xs, index)
    ensures Opens(env, xs + [e], |xs|) <==> Usable(env, e) && KeyOf(env, e) !in index
  {
    var ys := xs + [e];
    assert ys[|xs|] == e;
    assert forall j :: 0 <= j < |xs| ==> ys[j] == xs[j];
  }

  lemma FirstsGrow(env: Env, xs: seq<Fields>, e: Fields, index: map<Key, Entry>, grown: map<Key, Entry>)
    requires Indexes(env, xs, index)
    requires forall k :: k in index ==> k in grown && grown[k] == index[k]
    requires Usable(env, e) && KeyOf(env, e) !in index ==> Holds(env, grown, e)
    ensures FirstsAre(env, xs + [e], grown)
  {
    var ys := xs + [e];
    forall i | 0 <= i < |ys| && Opens(env, ys, i) ensures Holds(env, grown, ys[i]) {
      if i < |xs| {
        OpensKept(env, xs, e, i);
        assert Holds(env, index, xs[i]);
      } else {
        OpensWhenNew(env, xs, e, index);
      }
    }
  }

  lemma IndexKept(env: Env, xs: seq<Fields>, e: Fields, index: map<Key, Entry>)
    requires Indexes(env, xs, index) && !(Usable(env, e) && KeyOf(env, e) !in index)
    ensures Indexes(env, xs + [e], index)
  {
    KeysGrow(env, xs, e, index, index);
    FirstsGrow(env, xs, e, index, index);
  }

  lemma EntersKey(env: Env, e: Fields, index: map<Key, Entry>, key: Key, entry: Entry)
    requires Keyed(env, e, key)
    ensures forall k :: k in index[key := entry] <==> k in index || Keyed(env, e, k)
  {}

  lemma IndexNew(env: Env, xs: seq<Fields>, e: Fields, index: map<Key, Entry>, key: Key, entry: Entry)
    requires Indexes(env, xs, index) && Keyed(env, e, key) && key !in index && entry == EntryOf(env, e)
    ensures Indexes(env, xs + [e], index[key := entry])
  {
    EntersKey(env, e, index, key, entry);
    KeysGrow(env, xs, e, index, index[key := entry]);
    FirstsGrow(env, xs, e, index, index[key := entry]);
  }

  /** What is wrong with one exception, given whether it is the first of its key. */
  function FindingsOf(env: Env, e: Fields, opens: bool): seq<Finding> {
    if !Complete(e) then [Incomplete(e)]
    else if DateOf(env, e).None? then [BadDate(e)]
    else if KeyOf(env, e).0 == "" || KeyOf(env, e).1 == "" then [NoKey(e)]
    else if !opens then [Duplicate(e)]
    else []
  }

  ghost function Findings(env: Env, xs: seq<Fields>): seq<Finding> {
    if xs == [] then [] else
      var last := |xs| - 1;
      Findings(env, xs[..last]) + FindingsOf(env, xs[last], Opens(env, xs, last))
  }

  lemma {:induction false} FindingsGrow(env: Env, xs: seq<Fields>, i: nat, index: map<Key, Entry>)
    requires i < |xs| && KeysAre(env, xs[..i], index)
    ensures Findings(env, xs[..i + 1]) ==
            Findings(env, xs[..i]) + FindingsOf(env, xs[i], Usable(env, xs[i]) && KeyOf(env, xs[i]) !in index)
  {
    var ys := xs[..i + 1];
    assert ys[..i] == xs[..i] && ys == xs[..i] + [xs[i]];
    OpensWhenNew(env, xs[..i], xs[i], index);
  }

  lemma {:induction false} NoFindingsExactly(env: Env, xs: seq<Fields>)
    ensures Findings(env, xs) == [] <==> Lawful(env, xs)
  {
    if xs != [] {
      var last := |xs| - 1;
      NoFindingsExactly(env, xs[..last]);
      assert xs[..last] + [xs[last]] == xs;
      LawfulWhenOpen(env, xs[..last], xs[last]);
      NoFindingWhenOpen(env, xs[last], Opens(env, xs, last));
    }
  }

  lemma NoFindingWhenOpen(env: Env, e: Fields, opens: bool)
    ensures FindingsOf(env, e, opens) == [] <==> Usable(env, e) && opens
  {}

  lemma LawfulWhenOpen(env: Env, xs: seq<Fields>, e: Fields)
    ensures Lawful(env, xs + [e]) <==> Lawful(env, xs) && Opens(env, xs + [e], |xs|)
  {
    var ys := xs + [e];
    assert ys[|xs|] == e;
    assert forall i :: 0 <= i < |xs| ==> ys[i] == xs[i];
    assert forall i :: 0 <= i < |xs| && Usable(env, xs[i]) ==>
      (Keyed(env, ys[i], KeyOf(env, e)) <==> KeyOf(env, xs[i]) == KeyOf(env, e));
  }

  /** What one more exception does to the index. */
  lemma IndexStep(env: Env, xs: seq<Fields>, i: nat, index: map<Key, Entry>)
    requires i < |xs| && Indexes(env, xs[..i], index)
    ensures Indexes(env, xs[..i + 1],
                    if Usable(env, xs[i]) && KeyOf(env, xs[i]) !in index
                    then index[KeyOf(env, xs[i]) := EntryOf(env, xs[i])] else index)
  {
    var e := xs[i];
    assert xs[..i + 1] == xs[..i] + [e];
    if Usable(env, e) && KeyOf(env, e) !in index {
      IndexNew(env, xs[..i], e, index, KeyOf(env, e), EntryOf(env, e));
    } else {
      IndexKept(env, xs[..i], e, index);
    }
  }

  /** The index, and one error for each exception that is not the first usable one
      with its key. */
  method BuildIndex(env: Env, xs: seq<Fields>) returns (index: map<Key, Entry>, errors: seq<Finding>)
    ensures Indexes(env, xs, index)
    ensures errors == Findings(env, xs)
  {
    index, errors := map[], [];
    for i := 0 to |xs|
      invariant Indexes(env, xs[..i], index)
      invariant errors == Findings(env, xs[..i])
    {
      var e := xs[i];
      IndexStep(env, xs, i, index);
      FindingsGrow(env, xs, i, index);
      if !Complete(e) {
        errors := errors + [Incomplete(e)];
        continue;
      }
      var date := DateOf(env, e);
      if date.None? {
        errors := errors + [BadDate(e)];
        continue;
      }
      var key := KeyOf(env, e);
      if key.0 == "" || key.1 == "" {
        errors := errors + [NoKey(e)];
        continue;
      }
      if key in index {
        errors := errors + [Duplicate(e)];
        continue;
      }
      index := index[key := Entry(e, SeverityOf(env, e), date.value)];
    }
    assert xs[..|xs|] == xs;
  }

  // -------------------------------------------------------------- vulnerabilities

  predicate IsHigh(severity: string) {
    severity == "high" || severity == "critical"
  }

  function VSeverity(env: Env, v: Vuln): string {
    NormalizeSeverity(env, OrEmpty(v.severity))
  }

  function VKey(env: Env, v: Vuln): Key {
    (NormalizePackage(OrEmpty(v.name)), NormalizeAdvisory(env, OrEmpty(v.advisory)))
  }

  /** A named tuple of high or critical severity. */
  predicate Relevant(env: Env, v: Vuln) {
    IsHigh(VSeverity(env, v)) && OrEmpty(v.name) != ""
  }

  /** Tuple i is the first relevant one with its key. */
  ghost predicate Leads(env: Env, vs: seq<Vuln>, i: nat)
    requires i < |vs|
  {
    Relevant(env, vs[i]) && forall j :: 0 <= j < i && Relevant(env, vs[j]) ==> VKey(env, vs[j]) != VKey(env, vs[i])
  }

  predicate Agrees(severity: string, v: string) {
    severity == "" || severity == v
  }

  // ---------------------------------------------------------------- specification

  /** Exception e covers v today, whatever its severity. */
  ghost predicate Covers(env: Env, e: Fields, v: Vuln, today: int) {
    KeyOf(env, e) == VKey(env, v) && DateOf(env, e).Some? && DateOf(env, e).value >= today
  }

  ghost predicate Covered(env: Env, xs: seq<Fields>, v: Vuln, today: int) {
    exists k :: 0 <= k < |xs| && Covers(env, xs[k], v, today)
  }

  /** Every exception for v names its severity, or none. */
  ghost predicate SeverityAgrees(env: Env, xs: seq<Fields>, v: Vuln) {
    forall k :: 0 <= k < |xs| && KeyOf(env, xs[k]) == VKey(env, v) ==>
      Agrees(SeverityOf(env, xs[k]), VSeverity(env, v))
  }

  ghost predicate AllCovered(env: Env, xs: seq<Fields>, vs: seq<Vuln>, today: int) {
    forall i :: 0 <= i < |vs| && Relevant(env, vs[i]) ==>
      VKey(env, vs[i]).1 != "" && Covered(env, xs, vs[i], today)
  }

  /** What the script accepts: severities are compared at leading tuples only. */
  ghost predicate Accepts(env: Env, xs: seq<Fields>, vs: seq<Vuln>, today: int) {
    && Lawful(env, xs)
    && AllCovered(env, xs, vs, today)
    && forall i :: 0 <= i < |vs| && Leads(env, vs, i) ==> SeverityAgrees(env, xs, vs[i])
  }

  // ------------------------------------------------------------------------- scan

  /** What the index says of a leading tuple. */
  predicate Passes(env: Env, index: map<Key, Entry>, v: Vuln, today: int) {
    var k := VKey(env, v);
    k in index && index[k].expiresOn >= today && Agrees(index[k].severity, VSeverity(env, v))
  }

  ghost predicate Scanned(env: Env, index: map<Key, Entry>, vs: seq<Vuln>, today: int) {
    forall i :: 0 <= i < |vs| && Relevant(env, vs[i]) ==>
      VKey(env, vs[i]).1 != "" && (Leads(env, vs, i) ==> Passes(env, index, vs[i], today))
  }

  predicate IsSeen(env: Env, v: Vuln, k: Key) {
    Relevant(env, v) && k.1 != "" && VKey(env, v) == k
  }

  ghost predicate SeenAre(env: Env, vs: seq<Vuln>, seen: set<Key>) {
    forall k :: k in seen <==> exists i :: 0 <= i < |vs| && IsSeen(env, vs[i], k)
  }

  lemma SeenGrows(env: Env, vs: seq<Vuln>, v: Vuln, seen: set<Key>, grown: set<Key>)
    requires SeenAre(env, vs, seen)
    requires forall k :: k in grown <==> k in seen || IsSeen(env, v, k)
    ensures SeenAre(env, vs + [v], grown)
  {
    var ws := vs + [v];
    assert forall i :: 0 <= i < |vs| ==> ws[i] == vs[i];
    assert ws[|vs|] == v;
    forall k ensures k in grown <==> exists i :: 0 <= i < |ws| && IsSeen(env, ws[i], k) {
      if k in seen {
        var i :| 0 <= i < |vs| && IsSeen(env, vs[i], k);
        assert IsSeen(env, ws[i], k);
      }
    }
  }

  /** Whether a tuple with an advisory leads is whether its key was seen. */
  lemma LeadsWhenUnseen(env: Env, vs: seq<Vuln>, v: Vuln, seen: set<Key>)
    requires SeenAre(env, vs, seen) && Relevant(env, v) && VKey(env, v).1 != ""
    ensures Leads(env, vs + [v], |vs|) <==> VKey(env, v) !in seen
  {
    var ws := vs + [v];
    assert ws[|vs|] == v;
    assert forall i :: 0 <= i < |vs| ==> ws[i] == vs[i];
    assert forall i :: 0 <= i < |vs| ==>
      (IsSeen(env, vs[i], VKey(env, v)) <==> Relevant(env, vs[i]) && VKey(env, vs[i]) == VKey(env, v));
  }

  lemma LeadsKept(env: Env, vs: seq<Vuln>, v: Vuln, i: nat)
    requires i < |vs|
    ensures Leads(env, vs + [v], i) <==> Leads(env, vs, i)
  {
    var ws := vs + [v];
    assert forall j :: 0 <= j <= i ==> ws[j] == vs[j];
  }

  lemma ScannedGrows(env: Env, index: map<Key, Entry>, vs: seq<Vuln>, v: Vuln, today: int)
    ensures Scanned(env, index, vs + [v], today) <==>
            && Scanned(env, index, vs, today)
            && (Relevant(env, v) ==> VKey(env, v).1 != "")
            && (Leads(env, vs + [v], |vs|) ==> Passes(env, index, v, today))
  {
    var ws := vs + [v];
    assert ws[|vs|] == v;
    forall i | 0 <= i < |vs| ensures ws[i] == vs[i] && (Leads(env, ws, i) <==> Leads(env, vs, i)) {
      LeadsKept(env, vs, v, i);
    }
  }

  lemma SeenStep(env: Env, vs: seq<Vuln>, v: Vuln, seen: set<Key>)
    requires SeenAre(env, vs, seen)
    ensures SeenAre(env, vs + [v], if Relevant(env, v) && VKey(env, v).1 != "" then seen + {VKey(env, v)} else seen)
  {
    var key := VKey(env, v);
    if Relevant(env, v) && key.1 != "" {
      SeenGrows(env, vs, v, seen, seen + {key});
    } else {
      SeenGrows(env, vs, v, seen, seen);
    }
  }

  lemma SeenTwice(seen: set<Key>, key: Key)
    requires key in seen
    ensures seen + {key} == seen
  {}

  /** The three lists the scan fills. */
  datatype Report = Report(errors: seq<Finding>, missing: seq<Vuln>, expired: seq<Vuln>)

  /** The lists after one more tuple, given whether it leads. */
  function Next(env: Env, index: map<Key, Entry>, v: Vuln, leads: bool, today: int, r: Report): Report {
    var key := VKey(env, v);
    if !Relevant(env, v) then r
    else if key.1 == "" then r.(errors := r.errors + [NoAdvisory(v)])
    else if !leads then r
    else if key !in index then r.(missing := r.missing + [v])
    else
      Report(if Agrees(index[key].severity, VSeverity(env, v)) then r.errors else r.errors + [Mismatch(v)], r.missing,
             if index[key].expiresOn < today then r.expired + [v] else r.expired)
  }

  ghost function Reports(env: Env, index: map<Key, Entry>, vs: seq<Vuln>, today: int): Report {
    if vs == [] then Report([], [], []) else
      var last := |vs| - 1;
      Next(env, index, vs[last], Leads(env, vs, last), today, Reports(env, index, vs[..last], today))
  }

  /** What the scan has seen and listed after i tuples. */
  ghost predicate SoFar(env: Env, index: map<Key, Entry>, vs: seq<Vuln>, i: nat, today: int, seen: set<Key>, r: Report)
    requires i <= |vs|
  {
    SeenAre(env, vs[..i], seen) && r == Reports(env, index, vs[..i], today)
  }

  lemma {:induction false} OneMore(env: Env, index: map<Key, Entry>, vs: seq<Vuln>, i: nat, today: int,
                                   seen: set<Key>, r: Report)
    requires i < |vs| && SoFar(env, index, vs, i, today, seen, r)
    ensures SoFar(env, index, vs, i + 1, today,
                  if Relevant(env, vs[i]) && VKey(env, vs[i]).1 != "" then seen + {VKey(env, vs[i])} else seen,
                  Next(env, index, vs[i], VKey(env, vs[i]) !in seen, today, r))
  {
    var v, ws := vs[i], vs[..i + 1];
    assert ws == vs[..i] + [v] && ws[..i] == vs[..i];
    SeenStep(env, vs[..i], v, seen);
    if Relevant(env, v) && VKey(env, v).1 != "" {
      LeadsWhenUnseen(env, vs[..i], v, seen);
    }
  }

  /** The scan lists what leading tuples lack. */
  method Match(env: Env, index: map<Key, Entry>, vs: seq<Vuln>, today: int)
    returns (errors: seq<Finding>, missing: seq<Vuln>, expired: seq<Vuln>)
    ensures Report(errors, missing, expired) == Reports(env, index, vs, today)
  {
    errors, missing, expired := [], [], [];
    var seen: set<Key> := {};
    for i := 0 to |vs|
      invariant SoFar(env, index, vs, i, today, seen, Report(errors, missing, expired))
    {
      var v := vs[i];
      OneMore(env, index, vs, i, today, seen, Report(errors, missing, expired));
      if !Relevant(env, v) {
        continue;
      }
      var key := VKey(env, v);
      if key.1 == "" {
        errors := errors + [NoAdvisory(v)];
        continue;
      }
      if key in seen {
        SeenTwice(seen, key);
        continue;
      }
      seen := seen + {key};
      if key !in index {
        missing := missing + [v];
        continue;
      }
      var found := index[key];
      if found.severity != "" && found.severity != VSeverity(env, v) {
        errors := errors + [Mismatch(v)];
      }
      if found.expiresOn < today {
        expired := expired + [v];
      }
    }
    assert vs[..|vs|] == vs;
  }

  lemma {:induction false} NextExactly(env: Env, index: map<Key, Entry>, v: Vuln, leads: bool, today: int, r: Report)
    ensures Next(env, index, v, leads, today, r) == Report([], [], []) <==>
            && r == Report([], [], [])
            && (Relevant(env, v) ==> VKey(env, v).1 != "")
            && (Relevant(env, v) && leads ==> Passes(env, index, v, today))
  {}

  lemma {:induction false} NoReportsExactly(env: Env, index: map<Key, Entry>, vs: seq<Vuln>, today: int)
    ensures Reports(env, index, vs, today) == Report([], [], []) <==> Scanned(env, index, vs, today)
    decreases |vs|
  {
    if vs != [] {
      var last := |vs| - 1;
      NoReportsExactly(env, index, vs[..last], today);
      assert vs[..last] + [vs[last]] == vs;
      ScannedGrows(env, index, vs[..last], vs[last], today);
      NextExactly(env, index, vs[last], Leads(env, vs, last), today, Reports(env, index, vs[..last], today));
    }
  }

  // ---------------------------------------------------------------------- verdict

  /** Over lawful exceptions, the index answers as the exceptions do. */
  lemma PassesExactly(env: Env, xs: seq<Fields>, index: map<Key, Entry>, v: Vuln, today: int)
    requires Lawful(env, xs) && Indexes(env, xs, index)
    ensures Passes(env, index, v, today) <==> Covered(env, xs, v, today) && SeverityAgrees(env, xs, v)
  {
    var key := VKey(env, v);
    forall k | 0 <= k < |xs| ensures KeyOf(env, xs[k]) in index {
      assert Keyed(env, xs[k], KeyOf(env, xs[k]));
    }
    if key in index {
      var i :| 0 <= i < |xs| && Keyed(env, xs[i], key);
      LawfulOpens(env, xs, i);
      assert index[key] == EntryOf(env, xs[i]);
      assert forall k :: 0 <= k < |xs| && KeyOf(env, xs[k]) == key ==> k == i;
      assert Covered(env, xs, v, today) <==> Covers(env, xs[i], v, today);
    }
  }

  lemma LawfulOpens(env: Env, xs: seq<Fields>, i: nat)
    requires Lawful(env, xs) && i < |xs|
    ensures Opens(env, xs, i)
  {}

  /** Tuples with the same key are covered alike, so leading ones suffice. */
  lemma {:induction false} EachHasLeader(env: Env, vs: seq<Vuln>, i: nat) returns (l: nat)
    requires i < |vs| && Relevant(env, vs[i])
    ensures l <= i && Leads(env, vs, l) && VKey(env, vs[l]) == VKey(env, vs[i])
  {
    if Leads(env, vs, i) {
      l := i;
    } else {
      var j :| 0 <= j < i && Relevant(env, vs[j]) && VKey(env, vs[j]) == VKey(env, vs[i]);
      l := EachHasLeader(env, vs, j);
    }
  }

  lemma ScannedExactly(env: Env, xs: seq<Fields>, index: map<Key, Entry>, vs: seq<Vuln>, today: int)
    requires Lawful(env, xs) && Indexes(env, xs, index)
    ensures Scanned(env, index, vs, today) <==> Accepts(env, xs, vs, today)
  {
    if Scanned(env, index, vs, today) {
      forall i | 0 <= i < |vs| && Leads(env, vs, i) ensures SeverityAgrees(env, xs, vs[i]) {
        PassesExactly(env, xs, index, vs[i], today);
      }
      forall i | 0 <= i < |vs| && Relevant(env, vs[i]) ensures Covered(env, xs, vs[i], today) {
        var l := EachHasLeader(env, vs, i);
        PassesExactly(env, xs, index, vs[l], today);
        var k :| 0 <= k < |xs| && Covers(env, xs[k], vs[l], today);
        assert Covers(env, xs[k], vs[i], today);
      }
    }
    if Accepts(env, xs, vs, today) {
      forall i | 0 <= i < |vs| && Relevant(env, vs[i])
        ensures Leads(env, vs, i) ==> Passes(env, index, vs[i], today)
      {
        PassesExactly(env, xs, index, vs[i], today);
      }
    }
  }

  /** main: zero exactly when the exceptions file parses and its exceptions accept
      the audit. */
  method Check(env: Env, raws: seq<string>, vs: seq<Vuln>, today: int) returns (code: int)
    ensures code == 0 <==> Parsed(raws).Ok? && Accepts(env, Parsed(raws).value, vs, today)
    ensures code == 0 <==> Parsed(raws).Ok? && AcceptsPlainly(env, Parsed(raws).value, vs, today)
    ensures code == 0 || code == 1
  {
    var parsed := ParseExceptions(raws);
    if parsed.Err? {
      return 1;
    }
    var index, errors := BuildIndex(env, parsed.value);
    var found, missing, expired := Match(env, index, vs, today);
    AcceptsExactly(env, parsed.value, vs, today);
    NoFindingsExactly(env, parsed.value);
    NoReportsExactly(env, index, vs, today);
    if Lawful(env, parsed.value) {
      ScannedExactly(env, parsed.value, index, vs, today);
    }
    code := if errors + found == [] && missing == [] && expired == [] then 0 else 1;
  }

  // ------------------------------------------------------- acceptance in plain terms

  ghost predicate Filled(e: Fields, name: string) {
    name in e && e[name] != ""
  }

  /** All five fields are there and not empty, the date can be read, and package and
      advisory are more than whitespace. */
  ghost predicate IsProper(env: Env, e: Fields) {
    && Filled(e, "package") && Filled(e, "advisory") && Filled(e, "severity")
    && Filled(e, "mitigation") && Filled(e, "expires_on")
    && env.parseDate(e["expires_on"]).Some?
    && Strip(e["package"]) != "" && env.lower(Strip(e["advisory"])) != ""
  }

  /** A package by its stripped name, an advisory stripped and in lower case. */
  ghost predicate SameNames(env: Env, package: string, advisory: string, package': string, advisory': string) {
    Strip(package) == Strip(package') && env.lower(Strip(advisory)) == env.lower(Strip(advisory'))
  }

  ghost predicate IsHighNamed(env: Env, v: Vuln) {
    && v.name.Some? && v.name.value != ""
    && var severity := env.lower(Strip(if v.severity.Some? then v.severity.value else ""));
       severity == "high" || severity == "critical"
  }

  function Advisory(v: Vuln): string {
    if v.advisory.Some? then v.advisory.value else ""
  }

  ghost predicate IsFor(env: Env, e: Fields, v: Vuln)
    requires IsProper(env, e) && IsHighNamed(env, v)
  {
    SameNames(env, e["package"], e["advisory"], v.name.value, Advisory(v))
  }

  ghost predicate AllProper(env: Env, xs: seq<Fields>) {
    && (forall i :: 0 <= i < |xs| ==> IsProper(env, xs[i]))
    && (forall i, j :: 0 <= i < j < |xs| && IsProper(env, xs[i]) && IsProper(env, xs[j]) ==>
          !SameNames(env, xs[i]["package"], xs[i]["advisory"], xs[j]["package"], xs[j]["advisory"]))
  }

  /** A named high or critical tuple has an advisory and an exception for it that
      has not expired. */
  ghost predicate IsExcepted(env: Env, xs: seq<Fields>, v: Vuln, today: int)
    requires AllProper(env, xs) && IsHighNamed(env, v)
  {
    && env.lower(Strip(Advisory(v))) != ""
    && exists k :: 0 <= k < |xs| && IsFor(env, xs[k], v) && env.parseDate(xs[k]["expires_on"]).value >= today
  }

  /** No earlier such tuple is about the same package and advisory. */
  ghost predicate IsFirst(env: Env, vs: seq<Vuln>, i: nat)
    requires i < |vs| && IsHighNamed(env, vs[i])
  {
    forall j :: 0 <= j < i && IsHighNamed(env, vs[j]) ==>
      !SameNames(env, vs[j].name.value, Advisory(vs[j]), vs[i].name.value, Advisory(vs[i]))
  }

  ghost predicate SameSeverity(env: Env, e: Fields, v: Vuln)
    requires IsProper(env, e)
  {
    var severity := env.lower(Strip(e["severity"]));
    severity == "" || severity == env.lower(Strip(if v.severity.Some? then v.severity.value else ""))
  }

  /** What the script accepts, over the fields of exceptions and tuples themselves. */
  ghost predicate AcceptsPlainly(env: Env, xs: seq<Fields>, vs: seq<Vuln>, today: int) {
    && AllProper(env, xs)
    && (forall i :: 0 <= i < |vs| && IsHighNamed(env, vs[i]) ==> IsExcepted(env, xs, vs[i], today))
    && (forall i :: 0 <= i < |vs| && IsHighNamed(env, vs[i]) && IsFirst(env, vs, i) ==>
          forall k :: 0 <= k < |xs| && IsFor(env, xs[k], vs[i]) ==> SameSeverity(env, xs[k], vs[i]))
  }

  lemma ProperExactly(env: Env, e: Fields)
    ensures IsProper(env, e) <==> Usable(env, e)
    ensures IsProper(env, e) ==>
              KeyOf(env, e) == (Strip(e["package"]), env.lower(Strip(e["advisory"])))
              && SeverityOf(env, e) == env.lower(Strip(e["severity"]))
              && DateOf(env, e) == env.parseDate(e["expires_on"])
  {}

  lemma HighNamedExactly(env: Env, v: Vuln)
    ensures IsHighNamed(env, v) <==> Relevant(env, v)
    ensures IsHighNamed(env, v) ==> VKey(env, v) == (Strip(v.name.value), env.lower(Strip(Advisory(v))))
    ensures VSeverity(env, v) == env.lower(Strip(if v.severity.Some? then v.severity.value else ""))
  {}

  lemma AllProperExactly(env: Env, xs: seq<Fields>)
    ensures AllProper(env, xs) <==> Lawful(env, xs)
  {
    forall i | 0 <= i < |xs|
      ensures IsProper(env, xs[i]) <==> Usable(env, xs[i])
      ensures IsProper(env, xs[i]) ==> KeyOf(env, xs[i]) == (Strip(xs[i]["package"]), env.lower(Strip(xs[i]["advisory"])))
    {
      ProperExactly(env, xs[i]);
    }
  }

  lemma ExceptedExactly(env: Env, xs: seq<Fields>, v: Vuln, today: int)
    requires AllProper(env, xs) && IsHighNamed(env, v)
    ensures IsExcepted(env, xs, v, today) <==> VKey(env, v).1 != "" && Covered(env, xs, v, today)
  {
    HighNamedExactly(env, v);
    forall k | 0 <= k < |xs|
      ensures Covers(env, xs[k], v, today) <==> IsFor(env, xs[k], v) && env.parseDate(xs[k]["expires_on"]).value >= today
    {
      ProperExactly(env, xs[k]);
    }
  }

  lemma FirstExactly(env: Env, vs: seq<Vuln>, i: nat)
    requires i < |vs| && IsHighNamed(env, vs[i])
    ensures IsFirst(env, vs, i) <==> Leads(env, vs, i)
  {
    HighNamedExactly(env, vs[i]);
    forall j | 0 <= j < i
      ensures IsHighNamed(env, vs[j]) <==> Relevant(env, vs[j])
      ensures IsHighNamed(env, vs[j]) ==> VKey(env, vs[j]) == (Strip(vs[j].name.value), env.lower(Strip(Advisory(vs[j]))))
    {
      HighNamedExactly(env, vs[j]);
    }
  }

  lemma SeveritiesExactly(env: Env, xs: seq<Fields>, v: Vuln)
    requires AllProper(env, xs) && IsHighNamed(env, v)
    ensures SeverityAgrees(env, xs, v) <==>
            forall k :: 0 <= k < |xs| && IsFor(env, xs[k], v) ==> SameSeverity(env, xs[k], v)
  {
    HighNamedExactly(env, v);
    forall k | 0 <= k < |xs|
      ensures KeyOf(env, xs[k]) == VKey(env, v) <==> IsFor(env, xs[k], v)
      ensures Agrees(SeverityOf(env, xs[k]), VSeverity(env, v)) <==> SameSeverity(env, xs[k], v)
    {
      ProperExactly(env, xs[k]);
    }
  }

  /** The acceptance condition and its plain form are the same. */
  lemma AcceptsExactly(env: Env, xs: seq<Fields>, vs: seq<Vuln>, today: int)
    ensures Accepts(env, xs, vs, today) <==> AcceptsPlainly(env, xs, vs, today)
  {
    AllProperExactly(env, xs);
    if AllProper(env, xs) {
      forall i | 0 <= i < |vs|
        ensures IsHighNamed(env, vs[i]) <==> Relevant(env, vs[i])
        ensures IsHighNamed(env, vs[i]) ==>
                  (IsExcepted(env, xs, vs[i], today) <==> VKey(env, vs[i]).1 != "" && Covered(env, xs, vs[i], today))
        ensures IsHighNamed(env, vs[i]) ==> (IsFirst(env, vs, i) <==> Leads(env, vs, i))
        ensures IsHighNamed(env, vs[i]) ==>
                  (SeverityAgrees(env, xs, vs[i]) <==>
                   forall k :: 0 <= k < |xs| && IsFor(env, xs[k], vs[i]) ==> SameSeverity(env, xs[k], vs[i]))
      {
        HighNamedExactly(env, vs[i]);
        if IsHighNamed(env, vs[i]) {
          ExceptedExactly(env, xs, vs[i], today);
          FirstExactly(env, vs, i);
          SeveritiesExactly(env, xs, vs[i]);
        }
      }
    }
  }

  // -------------------------------------------------------------- order of tuples

  /** Acceptance with severities compared at every tuple. */
  ghost predicate Strict(env: Env, xs: seq<Fields>, vs: seq<Vuln>, today: int) {
    && Lawful(env, xs)
    && AllCovered(env, xs, vs, today)
    && forall i :: 0 <= i < |vs| && Relevant(env, vs[i]) ==> SeverityAgrees(env, xs, vs[i])
  }

  ghost predicate NamesSeverity(env: Env, xs: seq<Fields>, key: Key) {
    exists k :: 0 <= k < |xs| && KeyOf(env, xs[k]) == key && SeverityOf(env, xs[k]) != ""
  }

  /** Relevant tuples excepted by severity have one severity for each key. */
  ghost predicate Uniform(env: Env, xs: seq<Fields>, vs: seq<Vuln>) {
    forall i, j ::
      && 0 <= i < j < |vs| && Relevant(env, vs[i]) && Relevant(env, vs[j])
      && VKey(env, vs[i]) == VKey(env, vs[j]) && NamesSeverity(env, xs, VKey(env, vs[i])) ==>
      VSeverity(env, vs[i]) == VSeverity(env, vs[j])
  }

  lemma StrictExactly(env: Env, xs: seq<Fields>, vs: seq<Vuln>, today: int)
    ensures Strict(env, xs, vs, today) <==> Accepts(env, xs, vs, today) && Uniform(env, xs, vs)
  {
    if Strict(env, xs, vs, today) {
      forall i, j | && 0 <= i < j < |vs| && Relevant(env, vs[i]) && Relevant(env, vs[j])
                    && VKey(env, vs[i]) == VKey(env, vs[j]) && NamesSeverity(env, xs, VKey(env, vs[i]))
        ensures VSeverity(env, vs[i]) == VSeverity(env, vs[j])
      {
        var k :| 0 <= k < |xs| && KeyOf(env, xs[k]) == VKey(env, vs[i]) && SeverityOf(env, xs[k]) != "";
        assert SeverityAgrees(env, xs, vs[i]) && SeverityAgrees(env, xs, vs[j]);
      }
    }
    if Accepts(env, xs, vs, today) && Uniform(env, xs, vs) {
      forall i | 0 <= i < |vs| && Relevant(env, vs[i]) ensures SeverityAgrees(env, xs, vs[i]) {
        AgreesWithLeader(env, xs, vs, today, i);
      }
    }
  }

  lemma AgreesWithLeader(env: Env, xs: seq<Fields>, vs: seq<Vuln>, today: int, i: nat)
    requires Accepts(env, xs, vs, today) && Uniform(env, xs, vs)
    requires i < |vs| && Relevant(env, vs[i])
    ensures SeverityAgrees(env, xs, vs[i])
  {
    var l := EachHasLeader(env, vs, i);
    assert SeverityAgrees(env, xs, vs[l]);
    forall k | 0 <= k < |xs| && KeyOf(env, xs[k]) == VKey(env, vs[i])
      ensures Agrees(SeverityOf(env, xs[k]), VSeverity(env, vs[i]))
    {
      if SeverityOf(env, xs[k]) != "" {
        assert NamesSeverity(env, xs, VKey(env, vs[l]));
        assert l == i || VSeverity(env, vs[l]) == VSeverity(env, vs[i]);
      }
    }
  }

  lemma StrictIgnoresOrder(env: Env, xs: seq<Fields>, vs: seq<Vuln>, ws: seq<Vuln>, today: int)
    requires multiset(vs) == multiset(ws) && Strict(env, xs, vs, today)
    ensures Strict(env, xs, ws, today)
  {
    forall i | 0 <= i < |ws| ensures ws[i] in vs {
      assert ws[i] in multiset(ws);
    }
  }

  /** The verdict depends on the order of the tuples: an audit is accepted in every
      order exactly when it is accepted in one and is uniform. */
  lemma EveryOrderExactly(env: Env, xs: seq<Fields>, vs: seq<Vuln>, today: int)
    ensures (forall ws :: multiset(ws) == multiset(vs) ==> Accepts(env, xs, ws, today)) <==>
            Accepts(env, xs, vs, today) && Uniform(env, xs, vs)
  {
    StrictExactly(env, xs, vs, today);
    if Accepts(env, xs, vs, today) && Uniform(env, xs, vs) {
      forall ws | multiset(ws) == multiset(vs) ensures Accepts(env, xs, ws, today) {
        StrictIgnoresOrder(env, xs, vs, ws, today);
        StrictExactly(env, xs, ws, today);
      }
    }
    if forall ws :: multiset(ws) == multiset(vs) ==> Accepts(env, xs, ws, today) {
      assert Accepts(env, xs, vs, today);
      forall i | 0 <= i < |vs| && Relevant(env, vs[i]) ensures SeverityAgrees(env, xs, vs[i]) {
        ToFront(vs, i);
        FrontAgrees(env, xs, MovedToFront(vs, i), today);
      }
    }
  }

  function MovedToFront(vs: seq<Vuln>, i: nat): seq<Vuln>
    requires i < |vs|
  {
    [vs[i]] + (vs[..i] + vs[i + 1..])
  }

  lemma ToFront(vs: seq<Vuln>, i: nat)
    requires i < |vs|
    ensures multiset(MovedToFront(vs, i)) == multiset(vs)
  {
    assert vs == vs[..i] + [vs[i]] + vs[i + 1..];
  }

  lemma FrontAgrees(env: Env, xs: seq<Fields>, ws: seq<Vuln>, today: int)
    requires Accepts(env, xs, ws, today) && ws != [] && Relevant(env, ws[0])
    ensures SeverityAgrees(env, xs, ws[0])
  {
    assert Leads(env, ws, 0);
  }

  /** A tuple of v's key whose severity its exceptions agree with. */
  ghost predicate Vouches(env: Env, xs: seq<Fields>, v: Vuln, w: Vuln) {
    Relevant(env, w) && VKey(env, w) == VKey(env, v) && SeverityAgrees(env, xs, w)
  }

  ghost predicate HasVoucher(env: Env, xs: seq<Fields>, vs: seq<Vuln>, v: Vuln) {
    exists w :: w in vs && Vouches(env, xs, v, w)
  }

  /** Each relevant tuple has one of its key whose severity agrees. */
  ghost predicate Vouched(env: Env, xs: seq<Fields>, vs: seq<Vuln>) {
    forall v {:trigger HasVoucher(env, xs, vs, v)} :: v in vs && Relevant(env, v) ==> HasVoucher(env, xs, vs, v)
  }

  ghost predicate Acceptable(env: Env, xs: seq<Fields>, vs: seq<Vuln>, today: int) {
    Lawful(env, xs) && AllCovered(env, xs, vs, today) && Vouched(env, xs, vs)
  }

  /** The tuples for which `p` holds. */
  function Picked(vs: seq<Vuln>, p: Vuln -> bool): seq<Vuln> {
    if vs == [] then [] else
      var last := |vs| - 1;
      Picked(vs[..last], p) + if p(vs[last]) then [vs[last]] else []
  }

  lemma {:induction false} PickedSplits(vs: seq<Vuln>, p: Vuln -> bool, q: Vuln -> bool)
    requires forall v :: q(v) <==> !p(v)
    ensures multiset(Picked(vs, p)) + multiset(Picked(vs, q)) == multiset(vs)
    decreases |vs|
  {
    if vs != [] {
      var last := |vs| - 1;
      PickedSplits(vs[..last], p, q);
      assert vs == vs[..last] + [vs[last]];
    }
  }

  lemma {:induction false} PickedMembers(vs: seq<Vuln>, p: Vuln -> bool)
    ensures forall v :: v in Picked(vs, p) <==> v in vs && p(v)
    decreases |vs|
  {
    if vs != [] {
      var last := |vs| - 1;
      PickedMembers(vs[..last], p);
      assert vs == vs[..last] + [vs[last]];
    }
  }

  ghost function AgreesWith(env: Env, xs: seq<Fields>): Vuln -> bool {
    (v: Vuln) => SeverityAgrees(env, xs, v)
  }

  ghost function DiffersFrom(env: Env, xs: seq<Fields>): Vuln -> bool {
    (v: Vuln) => !SeverityAgrees(env, xs, v)
  }

  /** The tuples whose severity agrees, and then the others. */
  ghost function AgreeingFirst(env: Env, xs: seq<Fields>, vs: seq<Vuln>): (ws: seq<Vuln>)
    ensures multiset(ws) == multiset(vs)
  {
    PickedSplits(vs, AgreesWith(env, xs), DiffersFrom(env, xs));
    Picked(vs, AgreesWith(env, xs)) + Picked(vs, DiffersFrom(env, xs))
  }

  lemma SameTuples(vs: seq<Vuln>, ws: seq<Vuln>)
    requires multiset(vs) == multiset(ws)
    ensures forall i :: 0 <= i < |ws| ==> ws[i] in vs
  {
    forall i | 0 <= i < |ws| ensures ws[i] in vs {
      assert ws[i] in multiset(ws);
    }
  }

  lemma CoveredInAnyOrder(env: Env, xs: seq<Fields>, vs: seq<Vuln>, ws: seq<Vuln>, today: int)
    requires multiset(vs) == multiset(ws) && AllCovered(env, xs, vs, today)
    ensures AllCovered(env, xs, ws, today)
  {
    SameTuples(vs, ws);
  }

  lemma FollowsLeader(env: Env, ws: seq<Vuln>, i: nat, l: nat)
    requires l < i < |ws| && Relevant(env, ws[l]) && VKey(env, ws[l]) == VKey(env, ws[i])
    ensures !Leads(env, ws, i)
  {}

  /** Some tuple of `first` is relevant and has v's key. */
  ghost predicate LedBy(env: Env, first: seq<Vuln>, v: Vuln) {
    exists l :: 0 <= l < |first| && IsRelative(env, v, first[l])
  }

  predicate IsRelative(env: Env, v: Vuln, w: Vuln) {
    Relevant(env, w) && VKey(env, w) == VKey(env, v)
  }

  /** Behind tuples that lead all others of `rest`, none of `rest` leads. */
  lemma LedDoNotLead(env: Env, first: seq<Vuln>, rest: seq<Vuln>, i: nat)
    requires |first| <= i < |first + rest| && LedBy(env, first, (first + rest)[i])
    ensures !Leads(env, first + rest, i)
  {
    var ws := first + rest;
    var l :| 0 <= l < |first| && IsRelative(env, ws[i], first[l]);
    assert ws[l] == first[l];
    FollowsLeader(env, ws, i, l);
  }

  lemma VoucherOf(env: Env, xs: seq<Fields>, vs: seq<Vuln>, v: Vuln) returns (w: Vuln)
    requires Vouched(env, xs, vs) && v in vs && Relevant(env, v)
    ensures w in vs && Vouches(env, xs, v, w) && SeverityAgrees(env, xs, w)
  {
    assert HasVoucher(env, xs, vs, v);
    w :| w in vs && Vouches(env, xs, v, w);
  }

  lemma AgreeingIsPicked(env: Env, xs: seq<Fields>, vs: seq<Vuln>, w: Vuln)
    requires w in vs && SeverityAgrees(env, xs, w)
    ensures w in Picked(vs, AgreesWith(env, xs))
  {
    PickedMembers(vs, AgreesWith(env, xs));
  }

  lemma VoucherLeads(env: Env, xs: seq<Fields>, first: seq<Vuln>, v: Vuln, w: Vuln)
    requires Vouches(env, xs, v, w) && w in first
    ensures LedBy(env, first, v)
  {
    var l :| 0 <= l < |first| && first[l] == w;
    assert IsRelative(env, v, first[l]);
  }

  lemma AgreeingLeadTheRest(env: Env, xs: seq<Fields>, vs: seq<Vuln>, v: Vuln)
    requires Vouched(env, xs, vs) && v in vs && Relevant(env, v)
    ensures LedBy(env, Picked(vs, AgreesWith(env, xs)), v)
  {
    var w := VoucherOf(env, xs, vs, v);
    AgreeingIsPicked(env, xs, vs, w);
    VoucherLeads(env, xs, Picked(vs, AgreesWith(env, xs)), v, w);
  }

  /** With the agreeing tuples first, every leading tuple agrees. */
  lemma AgreeingLead(env: Env, xs: seq<Fields>, vs: seq<Vuln>, i: nat)
    requires Vouched(env, xs, vs) && i < |AgreeingFirst(env, xs, vs)| && Leads(env, AgreeingFirst(env, xs, vs), i)
    ensures SeverityAgrees(env, xs, AgreeingFirst(env, xs, vs)[i])
  {
    var first, rest := Picked(vs, AgreesWith(env, xs)), Picked(vs, DiffersFrom(env, xs));
    if i < |first| {
      PickedAgrees(env, xs, vs, i);
      assert (first + rest)[i] == first[i];
    } else {
      SameTuples(vs, first + rest);
      AgreeingLeadTheRest(env, xs, vs, (first + rest)[i]);
      LedDoNotLead(env, first, rest, i);
    }
  }

  lemma PickedAgrees(env: Env, xs: seq<Fields>, vs: seq<Vuln>, i: nat)
    requires i < |Picked(vs, AgreesWith(env, xs))|
    ensures SeverityAgrees(env, xs, Picked(vs, AgreesWith(env, xs))[i])
  {
    PickedMembers(vs, AgreesWith(env, xs));
    assert Picked(vs, AgreesWith(env, xs))[i] in Picked(vs, AgreesWith(env, xs));
  }

  lemma AcceptedVouches(env: Env, xs: seq<Fields>, vs: seq<Vuln>, ws: seq<Vuln>, today: int)
    requires multiset(ws) == multiset(vs) && Accepts(env, xs, ws, today)
    ensures Acceptable(env, xs, vs, today)
  {
    CoveredInAnyOrder(env, xs, ws, vs, today);
    SameTuples(ws, vs);
    SameTuples(vs, ws);
    forall v | v in vs && Relevant(env, v) ensures HasVoucher(env, xs, vs, v) {
      var k :| 0 <= k < |ws| && ws[k] == v;
      var l := EachHasLeader(env, ws, k);
      assert ws[l] in vs && Vouches(env, xs, v, ws[l]);
    }
  }

  /** An audit is accepted in some order of its tuples exactly when its exceptions
      are lawful and cover it, and each relevant tuple has one of its key whose
      severity agrees. */
  lemma SomeOrderExactly(env: Env, xs: seq<Fields>, vs: seq<Vuln>, today: int)
    ensures (exists ws :: multiset(ws) == multiset(vs) && Accepts(env, xs, ws, today)) <==> Acceptable(env, xs, vs, today)
  {
    if ws :| multiset(ws) == multiset(vs) && Accepts(env, xs, ws, today) {
      AcceptedVouches(env, xs, vs, ws, today);
    }
    if Acceptable(env, xs, vs, today) {
      var ws := AgreeingFirst(env, xs, vs);
      CoveredInAnyOrder(env, xs, vs, ws, today);
      forall i | 0 <= i < |ws| && Leads(env, ws, i) ensures SeverityAgrees(env, xs, ws[i]) {
        AgreeingLead(env, xs, vs, i);
      }
      assert Accepts(env, xs, ws, today);
    }
  }

  /** The verdict is the same for every order of the tuples. */
  ghost predicate OrderIsIrrelevant(env: Env, xs: seq<Fields>, vs: seq<Vuln>, today: int) {
    forall ws :: multiset(ws) == multiset(vs) ==> (Accepts(env, xs, ws, today) <==> Accepts(env, xs, vs, today))
  }

  /** Exactly when: unless some relevant tuple has none of its key that agrees, or
      the exceptions are unlawful or leave a tuple uncovered (so that every order
      is refused), the verdict is independent of the order if and only if all
      severities agree (so that every order is accepted). */
  lemma OrderIrrelevantExactly(env: Env, xs: seq<Fields>, vs: seq<Vuln>, today: int)
    ensures OrderIsIrrelevant(env, xs, vs, today) <==>
            !Acceptable(env, xs, vs, today) || (Accepts(env, xs, vs, today) && Uniform(env, xs, vs))
  {
    SomeOrderExactly(env, xs, vs, today);
    EveryOrderExactly(env, xs, vs, today);
    assert multiset(vs) == multiset(vs);
  }

  /** One exception and two tuples, accepted in one order and refused in the other. */
  lemma SwappedIsRefused(env: Env, e: Fields, today: int)
    requires Lawful(env, [e]) && DateOf(env, e).Some? && DateOf(env, e).value >= today
    requires env.lower("high") == "high" && env.lower("critical") == "critical"
    requires SeverityOf(env, e) == "high"
    ensures var first, second := Sibling(e, "high"), Sibling(e, "critical");
      Accepts(env, [e], [first, second], today) && !Accepts(env, [e], [second, first], today)
  {
    var first, second := Sibling(e, "high"), Sibling(e, "critical");
    assert [e][0] == e && Usable(env, e);
    StripNothing("high");
    StripNothing("critical");
    assert VSeverity(env, first) == "high" && VSeverity(env, second) == "critical";
    assert Covers(env, [e][0], first, today) && Covers(env, [e][0], second, today);
    assert VKey(env, second) == VKey(env, first) == KeyOf(env, e);
    var vs, ws := [first, second], [second, first];
    assert Relevant(env, vs[0]) && !Leads(env, vs, 1);
    assert Leads(env, ws, 0) && !SeverityAgrees(env, [e], ws[0]);
  }

  function Sibling(e: Fields, severity: string): Vuln {
    Vuln(Some(Field(e, "package")), Some(severity), Some(Field(e, "advisory")))
  }
}
