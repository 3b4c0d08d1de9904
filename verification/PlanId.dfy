/** The plan identifier: length-prefixed fields behind a variant prefix, and why no two bindings share one. */
module PlanId {
  import Utf8

  type Text = string

  // ---- Decimal lengths ----

  function Digit(d: nat): char
    requires d < 10
  {
    '0' + d as char
  }

  function Digits(n: nat): Text {
    if n < 10 then [Digit(n)] else Digits(n / 10) + [Digit(n % 10)]
  }

  function ValueOf(s: Text): int {
    if s == "" then 0 else 10 * ValueOf(s[..|s| - 1]) + (s[|s| - 1] as int - '0' as int)
  }

  lemma {:induction false} DigitsValue(n: nat)
    ensures ValueOf(Digits(n)) == n && ':' !in Digits(n)
  {
    if n < 10 {
      assert Digits(n)[..0] == "";
    } else {
      DigitsValue(n / 10);
      assert Digits(n)[..|Digits(n)| - 1] == Digits(n / 10);
    }
  }

  lemma DigitsAreUnique(m: nat, n: nat)
    requires Digits(m) == Digits(n)
    ensures m == n
  {
    DigitsValue(m);
    DigitsValue(n);
  }

  // ---- Fields ----

  /** One field: its length in UTF-8 bytes, a colon, and the text. */
  function Field(value: Text): Text {
    Digits(Utf8.Length(value)) + ":" + value
  }

  function Encode(fields: seq<Text>): Text {
    if fields == [] then "" else Encode(fields[..|fields| - 1]) + Field(fields[|fields| - 1])
  }

  lemma Regroup<T>(a: seq<T>, b: seq<T>, c: seq<T>)
    ensures (a + b) + c == a + (b + c)
  {
  }

  lemma EncodeAppend(fields: seq<Text>, value: Text)
    ensures Encode(fields + [value]) == Encode(fields) + Field(value)
  {
    assert (fields + [value])[..|fields|] == fields;
  }

  lemma {:induction false} EncodeConcat(a: seq<Text>, b: seq<Text>)
    ensures Encode(a + b) == Encode(a) + Encode(b)
  {
    if b == [] {
      assert a + b == a;
    } else {
      var init, last := b[..|b| - 1], b[|b| - 1];
      EncodeConcat(a, init);
      EncodeAppend(a + init, last);
      assert a + b == (a + init) + [last];
      Regroup(Encode(a), Encode(init), Field(last));
    }
  }

  function FirstColon(s: Text): nat {
    if s == "" || s[0] == ':' then 0 else 1 + FirstColon(s[1..])
  }

  lemma {:induction false} ColonAt(x: Text, a: Text)
    requires ':' !in x
    ensures FirstColon(x + ":" + a) == |x|
  {
    if x == "" {
      assert (x + ":" + a)[0] == ':';
    } else {
      ColonAt(x[1..], a);
      assert (x + ":" + a)[0] == x[0];
      assert (x + ":" + a)[1..] == x[1..] + ":" + a;
    }
  }

  /** The first colon ends the same decimal in both. */
  lemma SameHead(x: Text, y: Text, a: Text, b: Text)
    requires ':' !in x && ':' !in y && x + ":" + a == y + ":" + b
    ensures x == y && a == b
  {
    var s, t := x + ":" + a, y + ":" + b;
    ColonAt(x, a);
    ColonAt(y, b);
    assert x == s[..|x|] && y == t[..|y|];
    assert a == s[|x| + 1..] && b == t[|y| + 1..];
  }

  /** A first field is where one can only start: its text and what follows are determined. */
  lemma FirstField(v: Text, w: Text, a: Text, b: Text)
    requires Field(v) + a == Field(w) + b
    ensures v == w && a == b
  {
    var x, y := Digits(Utf8.Length(v)), Digits(Utf8.Length(w));
    DigitsValue(Utf8.Length(v));
    DigitsValue(Utf8.Length(w));
    assert Field(v) + a == x + ":" + (v + a) && Field(w) + b == y + ":" + (w + b);
    SameHead(x, y, v + a, w + b);
    var s := v + a;
    assert s[..|v|] == v && s[..|w|] == w;
    if |v| < |w| {
      Utf8.LongerIsMore(s, |v|, |w|);
    } else if |w| < |v| {
      Utf8.LongerIsMore(s, |w|, |v|);
    }
    assert a == s[|v|..] && b == (w + b)[|w|..];
  }

  lemma HeadFirst(fields: seq<Text>)
    requires fields != []
    ensures Encode(fields) == Field(fields[0]) + Encode(fields[1..])
  {
    assert fields == [fields[0]] + fields[1..];
    EncodeConcat([fields[0]], fields[1..]);
    EncodeAppend([], fields[0]);
    assert [] + [fields[0]] == [fields[0]];
  }

  /** Equal encodings come from equal field lists, of whatever number and content. */
  lemma {:induction false} EncodeIsInjective(a: seq<Text>, b: seq<Text>)
    requires Encode(a) == Encode(b)
    ensures a == b
  {
    if a != [] { HeadFirst(a); }
    if b != [] { HeadFirst(b); }
    if a != [] && b != [] {
      FirstField(a[0], b[0], Encode(a[1..]), Encode(b[1..]));
      EncodeIsInjective(a[1..], b[1..]);
      assert a == [a[0]] + a[1..] && b == [b[0]] + b[1..];
    }
  }

  // ---- What is bound ----

  /**
   * The bound parts of a report. `selected` is empty when nothing was selected; `retained` and `observe`
   * hold what only some report versions bind.
   */
  datatype Plan = Plan(
    identity: Text, scope: seq<Text>, selected: seq<Text>, limits: seq<Text>, retained: seq<Text>, observe: seq<Text>,
    outcome: Text, refusal: Text, findings: seq<seq<Text>>, coverage: seq<seq<Text>>)

  predicate AllOf(rows: seq<seq<Text>>, width: nat) {
    forall i :: 0 <= i < |rows| ==> |rows[i]| == width
  }

  /** The shape every verified report has: a refusal is one digit and the bound byte limit is not. */
  predicate Shaped(p: Plan) {
    && |p.scope| == 6 && (|p.selected| == 0 || |p.selected| == 11) && |p.limits| == 6
    && |p.retained| <= 1 && (|p.observe| == 0 || |p.observe| == 3) && (|p.observe| == 3 ==> |p.observe[1]| > 1)
    && |p.refusal| == 1 && AllOf(p.findings, 9) && AllOf(p.coverage, 4)
  }

  function Prefix(p: Plan): Text {
    if p.retained != [] then "apfs-verifier-refusal-ownership-v1|"
    else if p.observe != [] then "apfs-verifier-refusal-v2|"
    else "apfs-verifier-refusal-v1|"
  }

  function Flat(rows: seq<seq<Text>>): seq<Text> {
    if rows == [] then [] else rows[0] + Flat(rows[1..])
  }

  function Rows(rows: seq<seq<Text>>): seq<Text> {
    [Digits(|rows|)] + Flat(rows)
  }

  function Selected(p: Plan): seq<Text> {
    (if p.selected == [] then ["0"] else ["1"]) + p.selected
  }

  function Tail(p: Plan): seq<Text> {
    [p.outcome, p.refusal] + (Rows(p.findings) + Rows(p.coverage))
  }

  function Fields(p: Plan): seq<Text> {
    ([p.identity] + p.scope) + (Selected(p) + (p.limits + (p.retained + (p.observe + Tail(p)))))
  }

  function IdOf(p: Plan): Text {
    Prefix(p) + Encode(Fields(p))
  }

  // ---- The builder ----

  /** What has been built so far: the prefix and these fields. */
  ghost predicate Built(id: Text, prefix: Text, done: seq<Text>) {
    id == prefix + Encode(done)
  }

  method Append(id: Text, value: Text, ghost prefix: Text, ghost done: seq<Text>) returns (next: Text)
    requires Built(id, prefix, done)
    ensures Built(next, prefix, done + [value])
  {
    EncodeAppend(done, value);
    next := id + Field(value);
  }

  method AppendAll(id: Text, values: seq<Text>, ghost prefix: Text, ghost done: seq<Text>) returns (next: Text)
    requires Built(id, prefix, done)
    ensures Built(next, prefix, done + values)
  {
    next := id;
    assert done + values[..0] == done;
    for i := 0 to |values|
      invariant Built(next, prefix, done + values[..i])
    {
      assert (done + values[..i]) + [values[i]] == done + values[..i + 1];
      next := Append(next, values[i], prefix, done + values[..i]);
    }
    assert values[..|values|] == values;
  }

  lemma {:induction false} FlatNext(rows: seq<seq<Text>>, i: nat)
    requires i < |rows|
    ensures Flat(rows[..i + 1]) == Flat(rows[..i]) + rows[i]
  {
    if i == 0 {
      assert rows[..1] == [rows[0]] && rows[..0] == [];
      assert [rows[0]][1..] == [];
    } else {
      FlatNext(rows[1..], i - 1);
      assert rows[..i + 1][1..] == rows[1..][..i] && rows[..i][1..] == rows[1..][..i - 1];
    }
  }

  /** A count and then every row's fields. */
  method AppendRows(id: Text, rows: seq<seq<Text>>, ghost prefix: Text, ghost done: seq<Text>) returns (next: Text)
    requires Built(id, prefix, done)
    ensures Built(next, prefix, done + Rows(rows))
  {
    ghost var head := done + [Digits(|rows|)];
    next := Append(id, Digits(|rows|), prefix, done);
    assert head + Flat(rows[..0]) == head;
    for i := 0 to |rows|
      invariant Built(next, prefix, head + Flat(rows[..i]))
    {
      FlatNext(rows, i);
      Regroup(head, Flat(rows[..i]), rows[i]);
      next := AppendAll(next, rows[i], prefix, head + Flat(rows[..i]));
    }
    assert rows[..|rows|] == rows;
    Regroup(done, [Digits(|rows|)], Flat(rows));
  }

  /** The identifier as it is built, field after field. */
  method BuildPlanId(p: Plan) returns (id: Text)
    ensures id == IdOf(p)
  {
    var prefix := Prefix(p);
    ghost var a := [p.identity] + p.scope;
    ghost var b := a + Selected(p);
    ghost var c := b + p.limits;
    ghost var d := c + p.retained;
    ghost var e := d + p.observe;
    ghost var f := e + [p.outcome, p.refusal];
    assert [] + a == a;
    id := AppendAll(prefix, [p.identity] + p.scope, prefix, []);
    id := AppendAll(id, Selected(p), prefix, a);
    id := AppendAll(id, p.limits, prefix, b);
    id := AppendAll(id, p.retained, prefix, c);
    id := AppendAll(id, p.observe, prefix, d);
    id := AppendAll(id, [p.outcome, p.refusal], prefix, e);
    id := AppendRows(id, p.findings, prefix, f);
    id := AppendRows(id, p.coverage, prefix, f + Rows(p.findings));
    FieldsInOrder(p, a, b, c, d, e, f);
  }

  lemma FieldsInOrder(p: Plan, a: seq<Text>, b: seq<Text>, c: seq<Text>, d: seq<Text>, e: seq<Text>, f: seq<Text>)
    requires a == [p.identity] + p.scope && b == a + Selected(p) && c == b + p.limits && d == c + p.retained
    requires e == d + p.observe && f == e + [p.outcome, p.refusal]
    ensures (f + Rows(p.findings)) + Rows(p.coverage) == Fields(p)
  {
    Regroup(f, Rows(p.findings), Rows(p.coverage));
    Regroup(e, [p.outcome, p.refusal], Rows(p.findings) + Rows(p.coverage));
    Regroup(d, p.observe, Tail(p));
    Regroup(c, p.retained, p.observe + Tail(p));
    Regroup(b, p.limits, p.retained + (p.observe + Tail(p)));
    Regroup(a, Selected(p), p.limits + (p.retained + (p.observe + Tail(p))));
  }

  // ---- Injectivity ----

  lemma Peel<T>(a: seq<T>, b: seq<T>, x: seq<T>, y: seq<T>)
    requires a + x == b + y && |a| == |b|
    ensures a == b && x == y
  {
    assert a == (a + x)[..|a|] && b == (b + y)[..|b|];
    assert x == (a + x)[|a|..] && y == (b + y)[|b|..];
  }

  lemma {:induction false} FlatPeel(f: seq<seq<Text>>, g: seq<seq<Text>>, width: nat, x: seq<Text>, y: seq<Text>)
    requires |f| == |g| && AllOf(f, width) && AllOf(g, width) && Flat(f) + x == Flat(g) + y
    ensures f == g && x == y
  {
    if f == [] {
      assert Flat(f) + x == x && Flat(g) + y == y;
    } else {
      assert Flat(f) + x == f[0] + (Flat(f[1..]) + x) && Flat(g) + y == g[0] + (Flat(g[1..]) + y);
      Peel(f[0], g[0], Flat(f[1..]) + x, Flat(g[1..]) + y);
      FlatPeel(f[1..], g[1..], width, x, y);
      assert f == [f[0]] + f[1..] && g == [g[0]] + g[1..];
    }
  }

  lemma RowsPeel(f: seq<seq<Text>>, g: seq<seq<Text>>, width: nat, x: seq<Text>, y: seq<Text>)
    requires AllOf(f, width) && AllOf(g, width) && Rows(f) + x == Rows(g) + y
    ensures f == g && x == y
  {
    assert Rows(f) + x == [Digits(|f|)] + (Flat(f) + x) && Rows(g) + y == [Digits(|g|)] + (Flat(g) + y);
    Peel([Digits(|f|)], [Digits(|g|)], Flat(f) + x, Flat(g) + y);
    DigitsAreUnique(|f|, |g|);
    FlatPeel(f, g, width, x, y);
  }

  lemma TailPeel(p: Plan, q: Plan)
    requires Shaped(p) && Shaped(q) && Tail(p) == Tail(q)
    ensures p.outcome == q.outcome && p.refusal == q.refusal && p.findings == q.findings && p.coverage == q.coverage
  {
    Peel([p.outcome, p.refusal], [q.outcome, q.refusal], Rows(p.findings) + Rows(p.coverage), Rows(q.findings) + Rows(q.coverage));
    assert [p.outcome, p.refusal][0] == [q.outcome, q.refusal][0] && [p.outcome, p.refusal][1] == [q.outcome, q.refusal][1];
    RowsPeel(p.findings, q.findings, 9, Rows(p.coverage), Rows(q.coverage));
    assert Rows(p.coverage) + [] == Rows(p.coverage) && Rows(q.coverage) + [] == Rows(q.coverage);
    RowsPeel(p.coverage, q.coverage, 4, [], []);
  }

  /** Whether content was observed shows in the second field from there: a byte limit or a one-digit refusal. */
  lemma ObservePeel(p: Plan, q: Plan)
    requires Shaped(p) && Shaped(q) && p.observe + Tail(p) == q.observe + Tail(q)
    ensures p.observe == q.observe && Tail(p) == Tail(q)
  {
    var s, t := p.observe + Tail(p), q.observe + Tail(q);
    assert s[1] == if p.observe == [] then p.refusal else p.observe[1];
    assert t[1] == if q.observe == [] then q.refusal else q.observe[1];
    Peel(p.observe, q.observe, Tail(p), Tail(q));
  }

  lemma SelectedPeel(p: Plan, q: Plan, x: seq<Text>, y: seq<Text>)
    requires Shaped(p) && Shaped(q) && Selected(p) + x == Selected(q) + y
    ensures p.selected == q.selected && x == y
  {
    assert (Selected(p) + x)[0] == Selected(p)[0] && (Selected(q) + y)[0] == Selected(q)[0];
    assert "0"[0] != "1"[0];
    Peel(Selected(p), Selected(q), x, y);
    assert p.selected == Selected(p)[1..] && q.selected == Selected(q)[1..];
  }

  lemma FieldsAreInjective(p: Plan, q: Plan)
    requires Shaped(p) && Shaped(q) && (p.retained == [] <==> q.retained == []) && Fields(p) == Fields(q)
    ensures p == q
  {
    var a, b := p.retained + (p.observe + Tail(p)), q.retained + (q.observe + Tail(q));
    Peel([p.identity] + p.scope, [q.identity] + q.scope, Selected(p) + (p.limits + a), Selected(q) + (q.limits + b));
    Peel([p.identity], [q.identity], p.scope, q.scope);
    assert [p.identity][0] == [q.identity][0];
    SelectedPeel(p, q, p.limits + a, q.limits + b);
    Peel(p.limits, q.limits, a, b);
    Peel(p.retained, q.retained, p.observe + Tail(p), q.observe + Tail(q));
    ObservePeel(p, q);
    TailPeel(p, q);
  }

  /** Ids of different prefixes differ at the same place, whatever fields follow. */
  lemma PrefixShows(p: Plan, q: Plan)
    requires IdOf(p) == IdOf(q)
    ensures Prefix(p) == Prefix(q)
  {
    var s, t := IdOf(p), IdOf(q);
    assert s[22] == Prefix(p)[22] && t[22] == Prefix(q)[22];
    assert s[23] == Prefix(p)[23] && t[23] == Prefix(q)[23];
  }

  /** Two reports have the same plan identifier if and only if every bound part of them is the same. */
  lemma PlanIdIsInjective(p: Plan, q: Plan)
    requires Shaped(p) && Shaped(q)
    ensures IdOf(p) == IdOf(q) <==> p == q
  {
    if IdOf(p) == IdOf(q) {
      PrefixShows(p, q);
      Peel(Prefix(p), Prefix(q), Encode(Fields(p)), Encode(Fields(q)));
      EncodeIsInjective(Fields(p), Fields(q));
      assert "apfs-verifier-refusal-ownership-v1|"[22] == 'o' && "apfs-verifier-refusal-v2|"[22] == 'v' == "apfs-verifier-refusal-v1|"[22];
      FieldsAreInjective(p, q);
    }
  }

  /** The identifier in full: the version's prefix, then every bound part in its place. Reports that bind neither extra part keep the first form. */
  lemma PlanIdInOrder(p: Plan)
    ensures var bound := [p.identity] + p.scope + [if |p.selected| > 0 then "1" else "0"] + p.selected + p.limits
        + p.retained + p.observe + [p.outcome, p.refusal] + [Digits(|p.findings|)] + Flat(p.findings)
        + [Digits(|p.coverage|)] + Flat(p.coverage);
      && (|p.retained| > 0 ==> IdOf(p) == "apfs-verifier-refusal-ownership-v1|" + Encode(bound))
      && (|p.retained| == 0 && |p.observe| > 0 ==> IdOf(p) == "apfs-verifier-refusal-v2|" + Encode(bound))
      && (|p.retained| == 0 && |p.observe| == 0 ==> IdOf(p) == "apfs-verifier-refusal-v1|" + Encode(bound))
  {
    var bound := [p.identity] + p.scope + [if |p.selected| > 0 then "1" else "0"] + p.selected + p.limits
        + p.retained + p.observe + [p.outcome, p.refusal] + [Digits(|p.findings|)] + Flat(p.findings)
        + [Digits(|p.coverage|)] + Flat(p.coverage);
    assert Fields(p) == bound;
  }
}
