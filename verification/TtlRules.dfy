/**
 The rules that turn a measured TTL into a fake one: a text such as "10-1;5=3" is parsed into rules ordered by
 descending threshold, of which the first that applies is used; a bare number is used as it stands.
 */
module TtlRules {
  import opened Bytes

  datatype Rule = Rule(threshold: nat, op: char, val: nat)

  datatype RuleError = EmptyConfig | MissingLeft | MissingOperator | InvalidOperator | MissingRight

  datatype Parsed = Constant | Rules(rules: seq<Rule>) | Bad(err: RuleError)

  // ----- numbers -----

  predicate IsDigit(c: char) { '0' <= c <= '9' }

  predicate AllDigits(s: string) { forall i :: 0 <= i < |s| ==> IsDigit(s[i]) }

  function Value(s: string): nat
    requires AllDigits(s)
  {
    if s == "" then 0 else Value(s[..|s| - 1]) * 10 + (s[|s| - 1] as int - '0' as int)
  }

  /** The end of the run of digits that starts at `i`. */
  function DigitsEnd(s: string, i: nat): (e: nat)
    requires i <= |s|
    ensures i <= e <= |s| && AllDigits(s[i..e])
    ensures e < |s| ==> !IsDigit(s[e])
    decreases |s| - i
  {
    if i < |s| && IsDigit(s[i]) then
      var e := DigitsEnd(s, i + 1);
      assert forall k :: i <= k < e ==> IsDigit(s[k]) by {
        forall k | i <= k < e ensures IsDigit(s[k]) { if k > i { assert s[k] == s[i + 1..e][k - i - 1]; } }
      }
      e
    else i
  }

  lemma DigitsEndAt(s: string, i: nat, j: nat)
    requires i <= j <= |s| && AllDigits(s[i..j]) && (j < |s| ==> !IsDigit(s[j]))
    ensures DigitsEnd(s, i) == j
  {
    var e := DigitsEnd(s, i);
    if e < j { DigitInside(s, i, j, e); }
    if j < e { DigitInside(s, i, e, j); }
  }

  lemma DigitInside(s: string, i: nat, e: nat, k: nat)
    requires i <= k < e <= |s| && AllDigits(s[i..e])
    ensures IsDigit(s[k])
  {
    assert s[k] == s[i..e][k - i];
  }

  function Decimal(n: nat): (s: string)
    ensures s != "" && AllDigits(s) && Value(s) == n
  {
    var d := (n % 10 + '0' as int) as char;
    var s := if n < 10 then [d] else Decimal(n / 10) + [d];
    assert s[..|s| - 1] == if n < 10 then "" else Decimal(n / 10);
    s
  }

  // ----- the scanner -----

  /** What stands at `i`: a rule and where it leaves off, digits up to the end, or an error. */
  datatype Item = Item(rule: Rule, next: nat) | JustDigits | Wrong(err: RuleError)

  function ScanItem(s: string, i: nat): (r: Item)
    requires i < |s|
    ensures r.Item? ==> i < r.next <= |s|
  {
    var j := DigitsEnd(s, i);
    if j == i then Wrong(MissingLeft)
    else if j == |s| then JustDigits
    else if s[j] != '-' && s[j] != '=' then Wrong(InvalidOperator)
    else
      var k := DigitsEnd(s, j + 1);
      if k == j + 1 then Wrong(MissingRight)
      else Item(Rule(Value(s[i..j]), s[j], Value(s[j + 1..k])), if k < |s| && s[k] == ';' then k + 1 else k)
  }

  function Scan(s: string, i: nat, acc: seq<Rule>): Parsed
    requires i <= |s|
    decreases |s| - i
  {
    if i == |s| then Rules(acc)
    else
      match ScanItem(s, i)
      case Wrong(e) => Bad(e)
      case JustDigits => if acc == [] then Constant else Bad(MissingOperator)
      case Item(rule, next) => Scan(s, next, acc + [rule])
  }

  /** The rules of a text in the order in which they are written. */
  function ParseText(s: string): Parsed {
    if s == "" then Bad(EmptyConfig) else Scan(s, 0, [])
  }

  // ----- sorting -----

  predicate Descending(rs: seq<Rule>) {
    forall i, j :: 0 <= i < j < |rs| ==> rs[i].threshold >= rs[j].threshold
  }

  method InsertRule(sorted: seq<Rule>, r: Rule) returns (out: seq<Rule>)
    requires Descending(sorted)
    ensures Descending(out) && multiset(out) == multiset(sorted) + multiset{r}
  {
    var k := |sorted|;
    while k > 0 && sorted[k - 1].threshold < r.threshold
      invariant 0 <= k <= |sorted|
      invariant k < |sorted| ==> sorted[k].threshold < r.threshold
    {
      k := k - 1;
    }
    InsertedDescending(sorted, k, r);
    out := sorted[..k] + [r] + sorted[k..];
    assert sorted == sorted[..k] + sorted[k..];
  }

  lemma InsertedDescending(sorted: seq<Rule>, k: nat, r: Rule)
    requires Descending(sorted) && k <= |sorted|
    requires k > 0 ==> sorted[k - 1].threshold >= r.threshold
    requires k < |sorted| ==> sorted[k].threshold < r.threshold
    ensures Descending(sorted[..k] + [r] + sorted[k..])
  {
    var out := sorted[..k] + [r] + sorted[k..];
    forall i, j | 0 <= i < j < |out| ensures out[i].threshold >= out[j].threshold {
      var x, y := if i < k then i else i - 1, if j <= k then j else j - 1;
      assert out[i] == if i == k then r else sorted[x];
      assert out[j] == if j == k then r else sorted[y];
      assert i < k ==> sorted[i].threshold >= sorted[k - 1].threshold;
      assert j > k ==> sorted[k].threshold >= sorted[j - 1].threshold;
    }
  }

  /** Some descending arrangement; equal thresholds may come out in any order. */
  method SortRules(rules: seq<Rule>) returns (sorted: seq<Rule>)
    ensures Descending(sorted) && multiset(sorted) == multiset(rules)
  {
    sorted := [];
    for i := 0 to |rules|
      invariant Descending(sorted) && multiset(sorted) == multiset(rules[..i])
    {
      sorted := InsertRule(sorted, rules[i]);
      assert rules[..i + 1] == rules[..i] + [rules[i]];
    }
    assert rules[..|rules|] == rules;
  }

  method ScanDigits(b: string, start: nat) returns (i: nat, v: nat)
    requires start <= |b|
    ensures i == DigitsEnd(b, start) && v == Value(b[start..i])
  {
    i := start;
    while i < |b| && '0' <= b[i] <= '9'
      invariant start <= i <= |b| && DigitsEnd(b, i) == DigitsEnd(b, start)
    {
      i := i + 1;
    }
    v := 0;
    for k := start to i
      invariant AllDigits(b[start..k]) && v == Value(b[start..k])
    {
      DigitInside(b, start, i, k);
      assert b[start..k + 1] == b[start..k] + [b[k]];
      v := v * 10 + (b[k] as int - '0' as int);
    }
  }

  /** One rule, or what is wrong. */
  method ReadItem(conf: string, at: nat) returns (r: Item)
    requires at < |conf|
    ensures r == ScanItem(conf, at)
  {
    var i, a := ScanDigits(conf, at);
    if i == at { return Wrong(MissingLeft); }
    if i >= |conf| { return JustDigits; }
    var op := conf[i];
    if op != '-' && op != '=' { return Wrong(InvalidOperator); }
    var start, val := i + 1, 0;
    i, val := ScanDigits(conf, start);
    if i == start { return Wrong(MissingRight); }
    if i < |conf| && conf[i] == ';' { return Item(Rule(a, op, val), i + 1); }
    return Item(Rule(a, op, val), i);
  }

  /** `parseTTLRules`. */
  method ParseTTLRules(conf: string) returns (r: Parsed)
    ensures match ParseText(conf)
            case Rules(rs) => r.Rules? && Descending(r.rules) && multiset(r.rules) == multiset(rs)
            case other => r == other
  {
    if |conf| == 0 { return Bad(EmptyConfig); }
    var rules: seq<Rule> := [];
    var i := 0;
    while i < |conf|
      invariant i <= |conf|
      invariant Scan(conf, i, rules) == ParseText(conf)
      decreases |conf| - i
    {
      var item := ReadItem(conf, i);
      match item {
        case Wrong(e) => return Bad(e);
        case JustDigits => return if |rules| == 0 then Constant else Bad(MissingOperator);
        case Item(rule, next) =>
          rules := rules + [rule];
          i := next;
      }
    }
    rules := SortRules(rules);
    return Rules(rules);
  }

  // ----- the language -----

  /** A rule as written. */
  datatype Raw = Raw(left: string, op: char, right: string) {
    predicate Ok() { left != "" && AllDigits(left) && (op == '-' || op == '=') && right != "" && AllDigits(right) }
    function Print(): string { left + [op] + right }
    function Meaning(): Rule
      requires Ok()
    {
      Rule(Value(left), op, Value(right))
    }
  }

  predicate RawsOk(rs: seq<Raw>) { forall i :: 0 <= i < |rs| ==> rs[i].Ok() }

  /** Rules separated by semicolons, with one more at the end if `trailing`. */
  function Print(rs: seq<Raw>, trailing: bool): string {
    if rs == [] then "" else rs[0].Print() + (if |rs| > 1 || trailing then ";" else "") + Print(rs[1..], trailing)
  }

  function Meanings(rs: seq<Raw>): seq<Rule>
    requires RawsOk(rs)
  {
    if rs == [] then [] else [rs[0].Meaning()] + Meanings(rs[1..])
  }

  lemma PrintNested(r: Raw, rest: string)
    ensures r.Print() + rest == r.left + ([r.op] + (r.right + rest))
  {
  }

  lemma ItemFrom(s: string, i: nat, r: Raw, k: nat)
    requires i < |s| && r.Ok() && k == i + |r.left| + 1 + |r.right|
    requires DigitsEnd(s, i) == i + |r.left| < k <= |s| && DigitsEnd(s, i + |r.left| + 1) == k
    requires s[i..i + |r.left|] == r.left && s[i + |r.left|] == r.op && s[i + |r.left| + 1..k] == r.right
    ensures ScanItem(s, i) == Item(r.Meaning(), if k < |s| && s[k] == ';' then k + 1 else k)
  {
  }

  lemma SuffixAfter(s: string, i: nat, head: string, rest: string)
    requires i <= |s| && s[i..] == head + rest
    ensures var k := i + |head|;
            k <= |s| && s[k..] == rest && (rest != "" ==> k < |s| && s[k] == rest[0] && s[k + 1..] == rest[1..])
  {
    var k := i + |head|;
    assert s[k..] == s[i..][|head|..];
    if rest != "" {
      assert s[k] == s[k..][0];
      assert s[k + 1..] == s[k..][1..];
    }
  }

  lemma Slices(s: string, i: nat, left: string, op: char, right: string, rest: string)
    requires i <= |s| && s[i..] == left + ([op] + (right + rest))
    ensures var j := i + |left|;
            var k := j + 1 + |right|;
            && j < k <= |s| && s[i..j] == left && s[j] == op && s[j + 1..k] == right
            && |s| - k == |rest| && (rest != "" ==> s[k] == rest[0])
  {
    var j, t := i + |left|, s[i..];
    assert forall x :: 0 <= x < |t| ==> s[i + x] == t[x];
    assert t[|left|] == op;
    assert forall x :: 0 <= x < |right| ==> s[j + 1 + x] == t[|left| + 1 + x] == right[x];
    assert rest != "" ==> t[|left| + 1 + |right|] == rest[0];
  }

  lemma ItemPrinted(s: string, i: nat, r: Raw, rest: string)
    requires i < |s| && r.Ok() && (rest == "" || rest[0] == ';')
    requires s[i..] == r.left + ([r.op] + (r.right + rest))
    ensures ScanItem(s, i) == Item(r.Meaning(), i + |r.Print()| + (if rest == "" then 0 else 1))
  {
    var j := i + |r.left|;
    var k := j + 1 + |r.right|;
    assert k <= |s| && (k < |s| && s[k] == ';' <==> rest != "") by { Slices(s, i, r.left, r.op, r.right, rest); }
    ItemFrom(s, i, r, k) by {
      Slices(s, i, r.left, r.op, r.right, rest);
      DigitsEndAt(s, i, j);
      DigitsEndAt(s, j + 1, k);
    }
  }

  /** Completeness: every written list of rules scans to its meaning. */
  lemma {:induction false} ScansPrinted(s: string, i: nat, acc: seq<Rule>, rs: seq<Raw>, trailing: bool)
    requires i <= |s| && RawsOk(rs) && s[i..] == Print(rs, trailing)
    ensures Scan(s, i, acc) == Rules(acc + Meanings(rs))
    decreases |rs|
  {
    if rs == [] {
      assert acc + [] == acc;
    } else {
      var n := PrintedNext(s, i, rs, trailing);
      var first, others := [rs[0].Meaning()], Meanings(rs[1..]);
      ScansPrinted(s, n, acc + first, rs[1..], trailing);
      assert Meanings(rs) == first + others;
      assert (acc + first) + others == acc + (first + others);
    }
  }

  lemma PrintedNext(s: string, i: nat, rs: seq<Raw>, trailing: bool) returns (n: nat)
    requires i <= |s| && RawsOk(rs) && rs != [] && s[i..] == Print(rs, trailing)
    ensures i < |s| && n <= |s| && ScanItem(s, i) == Item(rs[0].Meaning(), n) && s[n..] == Print(rs[1..], trailing)
  {
    var more, tail := |rs| > 1 || trailing, Print(rs[1..], trailing);
    var rest := (if more then ";" else "") + tail;
    assert s[i..] == rs[0].Print() + rest;
    if !more { assert rs[1..] == []; }
    assert |s[i..]| > 0;
    PrintNested(rs[0], rest);
    ItemPrinted(s, i, rs[0], rest);
    SuffixAfter(s, i, rs[0].Print(), rest);
    n := i + |rs[0].Print()| + (if rest == "" then 0 else 1);
    assert more ==> rest[1..] == tail;
  }

  /** The rule at `i` as written, and what separates it from the next. */
  lemma ItemSplits(s: string, i: nat) returns (r: Raw, sep: string)
    requires i < |s| && ScanItem(s, i).Item?
    ensures r.Ok() && (sep == "" || sep == ";")
    ensures s[i..] == r.Print() + sep + s[ScanItem(s, i).next..]
    ensures sep == "" && ScanItem(s, i).next < |s| ==> !IsDigit(s[ScanItem(s, i).next])
    ensures sep == "" ==> IsDigit(s[ScanItem(s, i).next - 1])
    ensures sep == ";" ==> s[ScanItem(s, i).next - 1] == ';'
  {
    var j := DigitsEnd(s, i);
    var k := DigitsEnd(s, j + 1);
    r := Raw(s[i..j], s[j], s[j + 1..k]);
    DigitInside(s, j + 1, k, k - 1);
    sep := if k < |s| && s[k] == ';' then ";" else "";
    Seams(s, i, j, k);
  }

  lemma Seams(s: string, i: nat, j: nat, k: nat)
    requires i <= j < k <= |s|
    ensures s[i..] == s[i..j] + [s[j]] + s[j + 1..k] + "" + s[k..]
    ensures k < |s| && s[k] == ';' ==> s[i..] == s[i..j] + [s[j]] + s[j + 1..k] + ";" + s[k + 1..]
  {
  }

  /** Soundness: a text that scans to rules is a written list of rules. */
  lemma {:induction false} ScannedIsPrinted(s: string, i: nat, acc: seq<Rule>) returns (rs: seq<Raw>, trailing: bool)
    requires i <= |s| && Scan(s, i, acc).Rules?
    ensures RawsOk(rs) && s[i..] == Print(rs, trailing) && (i < |s| ==> rs != [])
    decreases |s| - i
  {
    if i == |s| {
      rs, trailing := [], false;
    } else {
      var n := ScanItem(s, i).next;
      var r, sep := ItemSplits(s, i);
      var more, t := ScannedIsPrinted(s, n, acc + [ScanItem(s, i).rule]);
      rs, trailing := [r] + more, if n == |s| then sep == ";" else t;
      assert rs[1..] == more;
      if n == |s| { EmptyPrint(more, t); }
      assert n < |s| ==> sep == ";";
    }
  }

  lemma EmptyPrint(rs: seq<Raw>, trailing: bool)
    requires RawsOk(rs) && Print(rs, trailing) == ""
    ensures rs == []
  {
  }

  lemma DigitsScan(s: string)
    ensures ParseText(s).Constant? <==> s != "" && AllDigits(s)
  {
    if s != "" {
      if AllDigits(s) {
        assert s[0..|s|] == s;
        DigitsEndAt(s, 0, |s|);
      } else {
        assert s[0..|s|] == s;
        if ScanItem(s, 0).Item? { NeverConstant(s, ScanItem(s, 0).next, [] + [ScanItem(s, 0).rule]); }
      }
    }
  }

  lemma {:induction false} NeverConstant(s: string, i: nat, acc: seq<Rule>)
    requires i <= |s| && acc != []
    ensures !Scan(s, i, acc).Constant?
    decreases |s| - i
  {
    if i < |s| && ScanItem(s, i).Item? { NeverConstant(s, ScanItem(s, i).next, acc + [ScanItem(s, i).rule]); }
  }

  ghost predicate Written(s: string) {
    exists rs: seq<Raw>, trailing: bool :: rs != [] && RawsOk(rs) && s == Print(rs, trailing)
  }

  /** Exactly two kinds of text are accepted: a bare number, and rules separated by semicolons. */
  lemma AcceptsExactly(s: string)
    ensures ParseText(s).Constant? <==> s != "" && AllDigits(s)
    ensures ParseText(s).Rules? <==> Written(s)
  {
    DigitsScan(s);
    if ParseText(s).Rules? {
      var rs, trailing := ScannedIsPrinted(s, 0, []);
      assert s[0..] == s;
      assert rs != [] && RawsOk(rs) && s == Print(rs, trailing);
    }
    if Written(s) {
      var rs: seq<Raw>, trailing: bool :| rs != [] && RawsOk(rs) && s == Print(rs, trailing);
      assert s[0..] == s;
      ScansPrinted(s, 0, [], rs, trailing);
    }
  }

  function ToRaws(rules: seq<Rule>): (rs: seq<Raw>)
    requires forall i :: 0 <= i < |rules| ==> rules[i].op == '-' || rules[i].op == '='
    ensures RawsOk(rs) && |rs| == |rules| && Meanings(rs) == rules
  {
    if rules == [] then []
    else
      var r := rules[0];
      var rs := [Raw(Decimal(r.threshold), r.op, Decimal(r.val))] + ToRaws(rules[1..]);
      assert rs[1..] == ToRaws(rules[1..]);
      rs
  }

  /** Round trip: a printed list of rules is read back, in order, with or without a trailing semicolon. */
  lemma ReadsBack(rules: seq<Rule>, trailing: bool)
    requires rules != [] && forall i :: 0 <= i < |rules| ==> rules[i].op == '-' || rules[i].op == '='
    ensures ParseText(Print(ToRaws(rules), trailing)) == Rules(rules)
  {
    var s := Print(ToRaws(rules), trailing);
    assert s[0..] == s;
    ScansPrinted(s, 0, [], ToRaws(rules), trailing);
    assert [] + rules == rules;
  }

  // ----- using the rules -----

  /** What a rule makes of a measured TTL: less by its value, or its value. */
  predicate Yields(r: Rule, ttl: int, fake: int) {
    (r.op == '-' ==> fake == ttl - r.val) && (r.op != '-' ==> fake == r.val)
  }

  /** The rule in force for `ttl`: it applies, and no rule that applies has a greater threshold. */
  predicate InForce(rules: seq<Rule>, r: Rule, ttl: int) {
    r in rules && r.threshold <= ttl && forall x :: x in rules && x.threshold <= ttl ==> x.threshold <= r.threshold
  }

  /** The rule closure of `loadTTLRules`: the first rule that applies. */
  method CalcByRules(rules: seq<Rule>, ttl: int) returns (r: Option<int>)
    requires Descending(rules)
    ensures r.None? <==> forall x :: x in rules ==> x.threshold > ttl
    ensures r.Some? ==> exists x :: InForce(rules, x, ttl) && Yields(x, ttl, r.value)
  {
    for i := 0 to |rules|
      invariant forall j :: 0 <= j < i ==> rules[j].threshold > ttl
    {
      if ttl >= rules[i].threshold {
        assert InForce(rules, rules[i], ttl);
        if rules[i].op == '-' { return Some(ttl - rules[i].val); }
        return Some(rules[i].val);
      }
    }
    return None;
  }

  /** The constant closure: the digits of the text, whatever the measured value. */
  method CalcConstant(conf: string) returns (r: Option<int>)
    ensures r == if AllDigits(conf) then Some(Value(conf)) else None
  {
    var val := 0;
    for i := 0 to |conf|
      invariant AllDigits(conf[..i]) && val == Value(conf[..i])
    {
      var c := conf[i];
      if c < '0' || c > '9' { return None; }
      assert conf[..i + 1][..i] == conf[..i];
      val := val * 10 + (c as int - '0' as int);
    }
    assert conf[..|conf|] == conf;
    return Some(val);
  }

  /** What a text makes of a measured TTL. */
  ghost predicate Calculates(conf: string, ttl: int, loaded: bool, r: Option<int>) {
    match ParseText(conf)
    case Bad(_) => !loaded
    case Constant => loaded && AllDigits(conf) && r == Some(Value(conf))
    case Rules(rules) =>
      && loaded
      && (r.None? <==> forall x :: x in rules ==> x.threshold > ttl)
      && (r.Some? ==> exists x :: InForce(rules, x, ttl) && Yields(x, ttl, r.value))
  }

  /** `loadTTLRules` followed by a call of what it installed. */
  method FakeTtl(conf: string, ttl: int) returns (loaded: bool, r: Option<int>)
    ensures Calculates(conf, ttl, loaded, r)
  {
    var parsed := ParseTTLRules(conf);
    match parsed {
      case Bad(_) => return false, None;
      case Constant =>
        DigitsScan(conf);
        r := CalcConstant(conf);
        return true, r;
      case Rules(sorted) =>
        ghost var rules := ParseText(conf).rules;
        r := CalcByRules(sorted, ttl);
        assert forall x :: x in rules <==> x in sorted by {
          assert forall x :: x in rules <==> x in multiset(rules);
          assert forall x :: x in sorted <==> x in multiset(sorted);
        }
        if r.Some? {
          var x :| InForce(sorted, x, ttl) && Yields(x, ttl, r.value);
          assert InForce(rules, x, ttl);
        }
        return true, r;
    }
  }

  predicate DistinctThresholds(rules: seq<Rule>) {
    forall i, j :: 0 <= i < j < |rules| ==> rules[i].threshold != rules[j].threshold
  }

  /** Rule `i` has the greatest threshold that is not above `ttl`. */
  predicate Greatest(rules: seq<Rule>, i: nat, ttl: int)
    requires i < |rules|
  {
    && rules[i].threshold <= ttl
    && forall j :: 0 <= j < |rules| && rules[j].threshold <= ttl ==> rules[j].threshold <= rules[i].threshold
  }

  /**
   From text to TTL: a printed list of rules with distinct thresholds gives the value, by operator, of the rule with the
   greatest threshold not above the measured TTL, and fails exactly when there is none.
   */
  lemma PrintedRulesDecide(rules: seq<Rule>, trailing: bool, ttl: int, loaded: bool, r: Option<int>)
    requires rules != [] && DistinctThresholds(rules)
    requires forall i :: 0 <= i < |rules| ==> rules[i].op == '-' || rules[i].op == '='
    requires Calculates(Print(ToRaws(rules), trailing), ttl, loaded, r)
    ensures loaded && (r.None? <==> forall i :: 0 <= i < |rules| ==> rules[i].threshold > ttl)
    ensures forall i :: 0 <= i < |rules| && Greatest(rules, i, ttl) ==> r == Some(if rules[i].op == '-' then ttl - rules[i].val else rules[i].val)
  {
    ReadsBack(rules, trailing);
    forall i | 0 <= i < |rules| && Greatest(rules, i, ttl)
      ensures r == Some(if rules[i].op == '-' then ttl - rules[i].val else rules[i].val)
    {
      GreatestDecides(rules, i, ttl, r);
    }
  }

  lemma GreatestDecides(rules: seq<Rule>, i: nat, ttl: int, r: Option<int>)
    requires DistinctThresholds(rules) && i < |rules| && Greatest(rules, i, ttl)
    requires r.None? ==> forall x :: x in rules ==> x.threshold > ttl
    requires r.Some? ==> exists x :: InForce(rules, x, ttl) && Yields(x, ttl, r.value)
    ensures r == Some(if rules[i].op == '-' then ttl - rules[i].val else rules[i].val)
  {
    assert rules[i] in rules;
    var x :| InForce(rules, x, ttl) && Yields(x, ttl, r.value);
    var k :| 0 <= k < |rules| && rules[k] == x;
    assert rules[k].threshold == rules[i].threshold;
  }
}
