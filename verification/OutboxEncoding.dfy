/** The text a scheduler outbox event is hashed from, in its three writers:
    the apply transaction (SQL), rollback (Python) and the service (Go).
    Every part is ASCII, so a character stands for one byte. SHA-256 is taken
    to be injective, so the hashed text stands for its hex digest. */
module OutboxEncoding {
  import opened Wrappers

  const NUL: char := '\0'

  // ---------------------------------------------------------------- decimals

  function DigitChar(d: nat): (c: char)
    requires d < 10
    ensures '0' <= c <= '9'
    ensures c as int - '0' as int == d
  {
    ('0' as int + d) as char
  }

  /** str(n), n::text and strconv.FormatInt(n, 10) for a bigserial id. */
  function Decimal(n: nat): (s: string)
    ensures s != []
    ensures forall c :: c in s ==> '0' <= c <= '9'
    ensures |s| == 1 <==> n < 10
  {
    if n < 10 then [DigitChar(n)] else Decimal(n / 10) + [DigitChar(n % 10)]
  }

  lemma {:induction false} DecimalInjective(m: nat, n: nat)
    requires Decimal(m) == Decimal(n)
    ensures m == n
    decreases m
  {
    var a, b := Decimal(m), Decimal(n);
    assert a[|a| - 1] == b[|b| - 1];
    assert m % 10 == n % 10;
    if m >= 10 && n >= 10 {
      assert Decimal(m / 10) == a[..|a| - 1] == b[..|b| - 1] == Decimal(n / 10);
      DecimalInjective(m / 10, n / 10);
    }
  }

  /** The number a text of digits stands for, by position. */
  function NumberOf(s: string): nat
    requires forall i :: 0 <= i < |s| ==> '0' <= s[i] <= '9'
  {
    if s == [] then 0 else
      var last := |s| - 1;
      10 * NumberOf(s[..last]) + (s[last] as int - '0' as int)
  }

  /** Read by position the digits give the number back, and none leads in vain. */
  lemma {:induction false} DecimalReadsBack(n: nat)
    ensures forall i :: 0 <= i < |Decimal(n)| ==> '0' <= Decimal(n)[i] <= '9'
    ensures NumberOf(Decimal(n)) == n
    ensures n > 0 ==> Decimal(n)[0] != '0'
    decreases n
  {
    var s := Decimal(n);
    assert s[|s| - 1] as int - '0' as int == n % 10;
    if n < 10 {
      assert s[..0] == "" && NumberOf("") == 0;
    } else {
      DecimalReadsBack(n / 10);
      assert s[..|s| - 1] == Decimal(n / 10) && s[0] == Decimal(n / 10)[0];
    }
  }

  // -------------------------------------------------------------- separators

  /** Two texts cut at their first separator agree on both sides of it. */
  lemma {:induction false} CutAtSeparator(a: string, b: string, sep: char, x: string, y: string)
    requires sep !in a && sep !in b
    requires a + [sep] + x == b + [sep] + y
    ensures a == b && x == y
    decreases |a|
  {
    var l, r := a + [sep] + x, b + [sep] + y;
    assert l[0] == r[0];
    assert if a == [] then l[0] == sep else a[0] in a && l[0] == a[0];
    assert if b == [] then r[0] == sep else b[0] in b && r[0] == b[0];
    if a == [] {
      assert x == l[1..] && y == r[1..];
    } else {
      assert l[0] == a[0] && r[0] == b[0];
      assert l[1..] == a[1..] + [sep] + x;
      assert r[1..] == b[1..] + [sep] + y;
      CutAtSeparator(a[1..], b[1..], sep, x, y);
      assert a == [a[0]] + a[1..] && b == [b[0]] + b[1..];
    }
  }

  // ----------------------------------------------------------------- payload

  /** string_agg(id::text, ',') */
  function Joined(ids: seq<nat>): string {
    if ids == [] then []
    else if |ids| == 1 then Decimal(ids[0])
    else Decimal(ids[0]) + [','] + Joined(ids[1..])
  }

  /** The payload of an account_changed event. */
  function Payload(ids: seq<nat>): string {
    "{\"group_ids\":[" + Joined(ids) + "]}"
  }

  const OPEN := "{\"group_ids\":["
  const CLOSE := "]}"

  /** The payload is a JSON object with the ids in brackets, a comma between any two. */
  lemma PayloadIsList(ids: seq<nat>, n: nat)
    ensures Payload([]) == "{\"group_ids\":[]}"
    ensures Payload([n]) == OPEN + Decimal(n) + CLOSE
    ensures ids != [] ==> Payload(ids + [n]) == Payload(ids)[..|Payload(ids)| - 2] + "," + Decimal(n) + CLOSE
  {
    if ids != [] {
      JoinedAppends(ids, n);
      assert Payload(ids)[..|Payload(ids)| - 2] == OPEN + Joined(ids);
    }
  }

  lemma {:induction false} JoinedAppends(ids: seq<nat>, n: nat)
    requires ids != []
    ensures Joined(ids + [n]) == Joined(ids) + "," + Decimal(n)
    decreases |ids|
  {
    assert (ids + [n])[1..] == ids[1..] + [n];
    if |ids| > 1 {
      JoinedAppends(ids[1..], n);
    } else {
      assert ids[1..] + [n] == [n];
    }
  }

  lemma {:induction false} JoinedInjective(a: seq<nat>, b: seq<nat>)
    requires Joined(a) == Joined(b)
    ensures a == b
    decreases |a|
  {
    if a == [] || b == [] {
      assert a != [] ==> Joined(a) != [];
      assert b != [] ==> Joined(b) != [];
    } else if |a| == 1 && |b| == 1 {
      DecimalInjective(a[0], b[0]);
    } else if |a| == 1 {
      NoCommaIn(a[0], b);
    } else if |b| == 1 {
      NoCommaIn(b[0], a);
    } else {
      CutAtSeparator(Decimal(a[0]), Decimal(b[0]), ',', Joined(a[1..]), Joined(b[1..]));
      DecimalInjective(a[0], b[0]);
      JoinedInjective(a[1..], b[1..]);
      assert a == [a[0]] + a[1..] && b == [b[0]] + b[1..];
    }
  }

  lemma NoCommaIn(n: nat, ids: seq<nat>)
    requires |ids| > 1
    ensures Decimal(n) != Joined(ids)
  {
    assert ',' in Joined(ids) by {
      assert Joined(ids)[|Decimal(ids[0])|] == ',';
    }
  }

  /** The printer loses nothing: equal payloads list the same ids in the same order. */
  lemma PayloadInjective(a: seq<nat>, b: seq<nat>)
    requires Payload(a) == Payload(b)
    ensures a == b
  {
    var open, close := "{\"group_ids\":[", "]}";
    var p, q := Payload(a), Payload(b);
    assert p[|open|..|p| - |close|] == Joined(a);
    assert q[|open|..|q| - |close|] == Joined(b);
    JoinedInjective(a, b);
  }

  // ---------------------------------------------------------------- preimage

  function OptionalDecimal(id: Option<nat>): string {
    match id case None => "" case Some(n) => Decimal(n)
  }

  /** The text hashed for an event: kind, account, group and payload, with a
      NUL after each of the first three. */
  function Preimage(kind: string, account: Option<nat>, group: Option<nat>, payload: string): string {
    kind + [NUL] + OptionalDecimal(account) + [NUL] + OptionalDecimal(group) + [NUL] + payload
  }

  lemma OptionalDecimalInjective(a: Option<nat>, b: Option<nat>)
    requires OptionalDecimal(a) == OptionalDecimal(b)
    ensures a == b
  {
    if a.Some? && b.Some? {
      DecimalInjective(a.value, b.value);
    }
  }

  /** The same text, cut at its first NUL. */
  lemma PreimageCut(kind: string, account: Option<nat>, group: Option<nat>, payload: string)
    ensures Preimage(kind, account, group, payload) == kind + [NUL] + Tail(account, group, payload)
  {
    var a, g := OptionalDecimal(account), OptionalDecimal(group);
    assert kind + [NUL] + a + [NUL] + g + [NUL] + payload
        == kind + [NUL] + (a + [NUL] + (g + [NUL] + payload));
  }

  function Tail(account: Option<nat>, group: Option<nat>, payload: string): string {
    OptionalDecimal(account) + [NUL] + (OptionalDecimal(group) + [NUL] + payload)
  }

  lemma TailInjective(a1: Option<nat>, g1: Option<nat>, p1: string,
                      a2: Option<nat>, g2: Option<nat>, p2: string)
    requires Tail(a1, g1, p1) == Tail(a2, g2, p2)
    ensures a1 == a2 && g1 == g2 && p1 == p2
  {
    var s1, s2 := OptionalDecimal(g1) + [NUL] + p1, OptionalDecimal(g2) + [NUL] + p2;
    CutAtSeparator(OptionalDecimal(a1), OptionalDecimal(a2), NUL, s1, s2);
    CutAtSeparator(OptionalDecimal(g1), OptionalDecimal(g2), NUL, p1, p2);
    OptionalDecimalInjective(a1, a2);
    OptionalDecimalInjective(g1, g2);
  }

  /** Equal preimages come from equal events. The payload may hold any bytes;
      only the kind has to be free of NUL. */
  lemma PreimageInjective(k1: string, a1: Option<nat>, g1: Option<nat>, p1: string,
                          k2: string, a2: Option<nat>, g2: Option<nat>, p2: string)
    requires NUL !in k1 && NUL !in k2
    requires Preimage(k1, a1, g1, p1) == Preimage(k2, a2, g2, p2)
    ensures k1 == k2 && a1 == a2 && g1 == g2 && p1 == p2
  {
    PreimageCut(k1, a1, g1, p1);
    PreimageCut(k2, a2, g2, p2);
    CutAtSeparator(k1, k2, NUL, Tail(a1, g1, p1), Tail(a2, g2, p2));
    TailInjective(a1, g1, p1, a2, g2, p2);
  }

  // ------------------------------------------------------------- the writers

  const GROUP_CHANGED := "group_changed"
  const ACCOUNT_CHANGED := "account_changed"

  function HexDigit(c: char): (d: nat)
    ensures d < 16
  {
    if '0' <= c <= '9' then c as int - '0' as int
    else if 'a' <= c <= 'f' then c as int - 'a' as int + 10
    else 0
  }

  /** decode(s, 'hex') */
  function DecodeHex(s: string): string {
    if |s| < 2 then [] else [(16 * HexDigit(s[0]) + HexDigit(s[1])) as char] + DecodeHex(s[2..])
  }

  /** The SQL of apply for a new group. */
  function SqlGroupKey(id: nat): string {
    GROUP_CHANGED + DecodeHex("0000") + Decimal(id) + DecodeHex("00")
  }

  /** The SQL of apply for an account whose groups changed. */
  function SqlAccountKey(account: nat, payload: string): string {
    ACCOUNT_CHANGED + DecodeHex("00") + Decimal(account) + DecodeHex("0000") + payload
  }

  /** event_sql of rollback. */
  function PythonGroupKey(id: nat): string {
    "group_changed\0\0" + Decimal(id) + "\0"
  }

  /** schedulerOutboxDedupKey: one write after the other into the hash. */
  method GoKey(kind: string, account: Option<nat>, group: Option<nat>, payload: string) returns (written: string)
    ensures written == Preimage(kind, account, group, payload)
  {
    written := kind;
    written := written + [NUL];
    if account.Some? {
      written := written + Decimal(account.value);
    }
    written := written + [NUL];
    if group.Some? {
      written := written + Decimal(group.value);
    }
    written := written + [NUL];
    written := written + payload;
  }

  lemma DecodedNuls()
    ensures DecodeHex("00") == [NUL] && DecodeHex("0000") == [NUL, NUL]
  {
    assert "0000"[2..] == "00";
    assert "00"[2..] == [];
  }

  /** All writers hash the same text for the same event, for every id. */
  lemma WritersAgree(id: nat, payload: string)
    ensures SqlGroupKey(id) == PythonGroupKey(id) == Preimage("group_changed", None, Some(id), "")
    ensures SqlAccountKey(id, payload) == Preimage("account_changed", Some(id), None, payload)
    ensures GROUP_CHANGED == "group_changed" && ACCOUNT_CHANGED == "account_changed"
    ensures NUL !in GROUP_CHANGED && NUL !in ACCOUNT_CHANGED
  {
    DecodedNuls();
    assert "group_changed\0\0" == GROUP_CHANGED + [NUL, NUL];
    assert [NUL] + [NUL] == [NUL, NUL];
    assert SqlGroupKey(id) == Preimage(GROUP_CHANGED, None, Some(id), "");
    assert SqlAccountKey(id, payload) == Preimage(ACCOUNT_CHANGED, Some(id), None, payload);
  }
}
