/** Expanding patterns such as "10.0.(0|1).(1|2|3)" into the texts they stand for. */
module ExpandPattern {
  // ----- splitting at bars -----

  function SplitByPipe(s: string): (r: seq<string>)
    ensures |r| >= 1
  {
    if s == "" then [""]
    else
      var n := |s| - 1;
      var before := SplitByPipe(s[..n]);
      if s[n] == '|' then before + [""]
      else before[..|before| - 1] + [before[|before| - 1] + [s[n]]]
  }

  function Join(parts: seq<string>): string {
    if parts == [] then ""
    else if |parts| == 1 then parts[0]
    else Join(parts[..|parts| - 1]) + "|" + parts[|parts| - 1]
  }

  predicate NoBars(parts: seq<string>) { forall i :: 0 <= i < |parts| ==> '|' !in parts[i] }

  /** Joining undoes splitting, and the parts contain no bar. */
  lemma {:induction false} JoinSplit(s: string)
    ensures Join(SplitByPipe(s)) == s && NoBars(SplitByPipe(s))
  {
    if s != "" {
      var n := |s| - 1;
      JoinSplit(s[..n]);
      var before, after := SplitByPipe(s[..n]), SplitByPipe(s);
      assert s == s[..n] + [s[n]];
      if s[n] == '|' {
        assert after[..|after| - 1] == before;
      } else {
        var k := |before| - 1;
        assert after[..k] == before[..k] && after[k] == before[k] + [s[n]];
      }
    }
  }

  lemma {:induction false} SplitLast(parts: seq<string>, x: string)
    requires parts != [] && '|' !in x && SplitByPipe(Join(parts)) == parts
    ensures SplitByPipe(Join(parts) + "|" + x) == parts + [x]
    decreases |x|
  {
    var s := Join(parts) + "|" + x;
    if x == "" {
      assert s[..|s| - 1] == Join(parts);
    } else {
      var n := |x| - 1;
      SplitLast(parts, x[..n]);
      assert x == x[..n] + [x[n]];
      assert s == (Join(parts) + "|" + x[..n]) + [x[n]];
      SplitExtends(Join(parts) + "|" + x[..n], parts, x[..n], x[n]);
    }
  }

  lemma SplitExtends(s: string, parts: seq<string>, last: string, c: char)
    requires SplitByPipe(s) == parts + [last] && c != '|'
    ensures SplitByPipe(s + [c]) == parts + [last + [c]]
  {
    assert (s + [c])[..|s|] == s;
    assert (parts + [last])[..|parts|] == parts;
  }

  lemma {:induction false} SplitPlain(x: string)
    requires '|' !in x
    ensures SplitByPipe(x) == [x]
  {
    if x != "" {
      var n := |x| - 1;
      SplitPlain(x[..n]);
      assert x == x[..n] + [x[n]];
    }
  }

  /** Splitting undoes joining. */
  lemma {:induction false} SplitJoin(parts: seq<string>)
    requires parts != [] && NoBars(parts)
    ensures SplitByPipe(Join(parts)) == parts
  {
    var n := |parts| - 1;
    if n == 0 {
      SplitPlain(parts[0]);
      assert parts == [parts[0]];
    } else {
      SplitJoin(parts[..n]);
      SplitLast(parts[..n], parts[n]);
      assert parts == parts[..n] + [parts[n]];
    }
  }

  method SplitByPipeLoop(s: string) returns (result: seq<string>)
    ensures result == SplitByPipe(s)
  {
    if s == "" { return [""]; }
    result := [];
    var curr := "";
    for i := 0 to |s|
      invariant result + [curr] == SplitByPipe(s[..i])
    {
      assert s[..i + 1][..i] == s[..i];
      assert (result + [curr])[..|result|] == result;
      if s[i] == '|' {
        result := result + [curr];
        curr := "";
      } else {
        curr := curr + [s[i]];
      }
    }
    assert s[..|s|] == s;
    result := result + [curr];
  }

  // ----- parentheses -----

  /** The first opening parenthesis, or the length. */
  function FirstOpen(s: string): (i: nat)
    ensures i <= |s| && '(' !in s[..i] && (i < |s| ==> s[i] == '(')
  {
    if s == "" || s[0] == '(' then 0
    else
      var i := FirstOpen(s[1..]);
      assert s[..i + 1] == [s[0]] + s[1..][..i];
      i + 1
  }

  /** The parenthesis that closes `depth` open ones, from `i` on, or the length. */
  function Close(s: string, i: nat, depth: nat): (r: nat)
    requires i <= |s|
    ensures i <= r <= |s|
    decreases |s| - i
  {
    if i == |s| then |s|
    else if s[i] == '(' then Close(s, i + 1, depth + 1)
    else if s[i] == ')' then (if depth <= 1 then i else Close(s, i + 1, depth - 1))
    else Close(s, i + 1, depth)
  }

  /** Opening parentheses minus closing ones. */
  function Net(s: string): int {
    if s == "" then 0 else Turn(s[0]) + Net(s[1..])
  }

  function Turn(c: char): int { if c == '(' then 1 else if c == ')' then -1 else 0 }

  /** Every closing parenthesis closes an earlier one. */
  predicate NoneTooMany(s: string) {
    s == "" || (NoneTooMany(s[..|s| - 1]) && Net(s) >= 0)
  }

  /** And none stays open. */
  predicate Balanced(s: string) { NoneTooMany(s) && Net(s) == 0 }

  lemma {:induction false} NoneTooManyIff(s: string, i: nat, q: nat)
    requires i <= q <= |s|
    ensures NoneTooMany(s[i..q]) <==> forall k :: i <= k <= q ==> Net(s[i..k]) >= 0
    decreases q
  {
    var t := s[i..q];
    if i == q {
      assert t == "";
    } else {
      NoneTooManyIff(s, i, q - 1);
      assert t[..|t| - 1] == s[i..q - 1];
    }
  }

  lemma NetCons(s: string, i: nat, k: nat)
    requires i < k <= |s|
    ensures Net(s[i..k]) == Turn(s[i]) + Net(s[i + 1..k])
  {
    assert s[i..k][1..] == s[i + 1..k];
  }

  lemma {:induction false} CloseFinds(s: string, i: nat, depth: nat)
    requires i <= |s| && depth >= 1
    ensures var r := Close(s, i, depth);
            && (forall k :: i <= k <= r ==> Net(s[i..k]) > 0 - depth)
            && (r < |s| ==> s[r] == ')' && Net(s[i..r + 1]) == 0 - depth)
    decreases |s| - i
  {
    var r := Close(s, i, depth);
    if i < |s| {
      var next := depth + Turn(s[i]);
      if next == 0 {
        NetCons(s, i, i + 1);
      } else {
        CloseFinds(s, i + 1, next);
        forall k | i <= k <= r ensures Net(s[i..k]) > 0 - depth { if k > i { NetCons(s, i, k); } }
        if r < |s| { NetCons(s, i, r + 1); }
      }
    }
  }

  lemma {:induction false} NetSnoc(s: string, i: nat, k: nat)
    requires i <= k < |s|
    ensures Net(s[i..k + 1]) == Net(s[i..k]) + Turn(s[k])
    decreases k - i
  {
    NetCons(s, i, k + 1);
    if i < k {
      NetSnoc(s, i + 1, k);
      NetCons(s, i, k);
    }
  }

  /** The parenthesis found is the one with balanced text in front of it; there is at most one. */
  lemma ClosesIff(s: string, start: nat, q: nat)
    requires start <= q < |s|
    ensures Close(s, start, 1) == q <==> s[q] == ')' && Balanced(s[start..q])
  {
    CloseFinds(s, start, 1);
    NetSnoc(s, start, q);
    NoneTooManyIff(s, start, q);
  }

  function Prefixed(head: string, suffixes: seq<string>): (r: seq<string>)
    ensures |r| == |suffixes| && forall i :: 0 <= i < |r| ==> r[i] == head + suffixes[i]
  {
    seq(|suffixes|, i requires 0 <= i < |suffixes| => head + suffixes[i])
  }

  /** Every part with every suffix, the suffix varying fastest. */
  function Product(prefix: string, parts: seq<string>, suffixes: seq<string>): seq<string> {
    if parts == [] then []
    else Product(prefix, parts[..|parts| - 1], suffixes) + Prefixed(prefix + parts[|parts| - 1], suffixes)
  }

  function Expand(s: string): seq<string>
    decreases |s|, 1
  {
    var left := FirstOpen(s);
    if left == |s| then SplitByPipe(s) else ExpandGroupAt(s, left, Close(s, left + 1, 1))
  }

  /** The group between `left` and `right`; a group that is never closed is no group. */
  function ExpandGroupAt(s: string, left: nat, right: nat): seq<string>
    requires left < right <= |s|
    decreases |s|, 0
  {
    if right == |s| then SplitByPipe(s)
    else Product(s[..left], SplitByPipe(s[left + 1..right]), Expand(s[right + 1..]))
  }

  method FindOpen(s: string) returns (left: nat)
    ensures left == FirstOpen(s)
  {
    left := 0;
    assert s[0..] == s;
    while left < |s| && s[left] != '('
      invariant left <= |s| && FirstOpen(s) == left + FirstOpen(s[left..])
    {
      assert s[left..][1..] == s[left + 1..];
      left := left + 1;
    }
  }

  method FindClose(s: string, start: nat) returns (right: nat)
    requires start <= |s|
    ensures right == Close(s, start, 1)
  {
    right := start;
    var depth := 1;
    while right < |s|
      invariant start <= right <= |s| && depth >= 1 && Close(s, right, depth) == Close(s, start, 1)
    {
      if s[right] == '(' {
        depth := depth + 1;
      } else if s[right] == ')' {
        depth := depth - 1;
        if depth == 0 { return; }
      }
      right := right + 1;
    }
  }

  method AllPairs(prefix: string, parts: seq<string>, suffixes: seq<string>) returns (result: seq<string>)
    ensures result == Product(prefix, parts, suffixes)
  {
    result := [];
    for i := 0 to |parts|
      invariant result == Product(prefix, parts[..i], suffixes)
    {
      ghost var before := result;
      for j := 0 to |suffixes|
        invariant result == before + Prefixed(prefix + parts[i], suffixes[..j])
      {
        result := result + [prefix + parts[i] + suffixes[j]];
        assert Prefixed(prefix + parts[i], suffixes[..j + 1])
            == Prefixed(prefix + parts[i], suffixes[..j]) + [prefix + parts[i] + suffixes[j]];
      }
      assert suffixes[..|suffixes|] == suffixes;
      assert parts[..i + 1][..i] == parts[..i];
    }
    assert parts[..|parts|] == parts;
  }

  /** One group taken apart: every part with every expansion of what follows. */
  method ExpandBetween(s: string, left: nat, right: nat) returns (result: seq<string>)
    requires left < right <= |s|
    ensures result == ExpandGroupAt(s, left, right)
    decreases |s|, 0
  {
    if right == |s| {
      result := SplitByPipeLoop(s);
      return;
    }
    var parts := SplitByPipeLoop(s[left + 1..right]);
    var suffixes := ExpandPattern(s[right + 1..]);
    result := AllPairs(s[..left], parts, suffixes);
  }

  /** `expandPattern`: scans for a group, then recurses on what follows it. */
  method ExpandPattern(s: string) returns (result: seq<string>)
    ensures result == Expand(s)
    decreases |s|, 1
  {
    var left := FindOpen(s);
    if left == |s| {
      result := SplitByPipeLoop(s);
      return;
    }
    var right := FindClose(s, left + 1);
    result := ExpandBetween(s, left, right);
  }

  // ----- flat patterns -----

  datatype Group = Group(literal: string, choices: seq<string>)

  /** A group: text without an opening parenthesis, then alternatives whose parentheses are balanced altogether. */
  predicate GroupOk(g: Group) {
    '(' !in g.literal && g.choices != [] && NoBars(g.choices) && Balanced(Join(g.choices))
  }

  /** No group is found. */
  predicate NoGroup(t: string) {
    FirstOpen(t) == |t| || Close(t, FirstOpen(t) + 1, 1) == |t|
  }

  /** The first opening parenthesis is at `l`, and `q` closes it. */
  predicate FirstGroup(t: string, l: nat, q: nat) {
    l < q < |t| && t[l] == '(' && '(' !in t[..l] && t[q] == ')' && Balanced(t[l + 1..q])
  }

  /** Groups in a row, then alternatives in which no group is closed (usually one). */
  datatype Pattern = Pattern(groups: seq<Group>, tail: seq<string>) {
    predicate Ok() {
      && (forall i :: 0 <= i < |groups| ==> GroupOk(groups[i]))
      && tail != [] && NoBars(tail) && NoGroup(Join(tail))
    }
    function Rest(): Pattern
      requires groups != []
    {
      Pattern(groups[1..], tail)
    }
    function Text(): string
      decreases |groups|
    {
      if groups == [] then Join(tail)
      else groups[0].literal + "(" + Join(groups[0].choices) + ")" + Rest().Text()
    }
    /** The number of texts: the product of the numbers of choices. */
    function Size(): nat
      decreases |groups|
    {
      if groups == [] then |tail| else |groups[0].choices| * Rest().Size()
    }
  }

  /** Text number `k`: `k` read in mixed radix, the first group being the most significant digit. */
  function Choice(p: Pattern, k: nat): string
    requires p.Ok() && k < p.Size()
    decreases |p.groups|
  {
    if p.groups == [] then p.tail[k]
    else
      var m := p.Rest().Size();
      DigitBounds(k, |p.groups[0].choices|, m);
      p.groups[0].literal + p.groups[0].choices[k / m] + Choice(p.Rest(), k % m)
  }

  lemma DigitBounds(k: nat, n: nat, m: nat)
    requires k < n * m
    ensures m > 0 && 0 <= k / m < n && k % m < m && k / m * m + k % m == k
  {
    assert m != 0;
    var q := k / m;
    assert k == q * m + k % m;
    assert q >= n ==> q * m >= n * m;
  }

  lemma {:induction false} ProductAt(prefix: string, parts: seq<string>, suffixes: seq<string>, q: nat, r: nat)
    requires q < |parts| && r < |suffixes|
    ensures 0 <= q * |suffixes| + r < |Product(prefix, parts, suffixes)|
    ensures Product(prefix, parts, suffixes)[q * |suffixes| + r] == prefix + parts[q] + suffixes[r]
    decreases |parts|
  {
    var n, m := |parts| - 1, |suffixes|;
    var init, last := Product(prefix, parts[..n], suffixes), Prefixed(prefix + parts[n], suffixes);
    assert Product(prefix, parts, suffixes) == init + last;
    if q < n {
      ProductAt(prefix, parts[..n], suffixes, q, r);
    } else {
      ProductSize(prefix, parts[..n], suffixes);
      assert (init + last)[n * m + r] == last[r];
    }
  }

  lemma {:induction false} ProductSize(prefix: string, parts: seq<string>, suffixes: seq<string>)
    ensures |Product(prefix, parts, suffixes)| == |parts| * |suffixes|
    decreases |parts|
  {
    if parts != [] {
      var n := |parts| - 1;
      ProductSize(prefix, parts[..n], suffixes);
      assert (n + 1) * |suffixes| == n * |suffixes| + |suffixes|;
    }
  }

  lemma OpenInside(s: string, i: nat, k: nat)
    requires i <= |s| && k <= |s| && '(' !in s[..i]
    ensures k < i ==> s[k] != '('
  {
    if k < i { assert s[k] == s[..i][k]; }
  }

  lemma FirstOpenIs(s: string, i: nat)
    requires i <= |s| && '(' !in s[..i] && (i < |s| ==> s[i] == '(')
    ensures FirstOpen(s) == i
  {
    var k := FirstOpen(s);
    OpenInside(s, i, k);
    OpenInside(s, k, i);
  }

  lemma GroupSlices(literal: string, inner: string, rest: string)
    ensures var s, left, right := literal + "(" + inner + ")" + rest, |literal|, |literal| + 1 + |inner|;
            && right < |s| && s[left] == '(' && s[right] == ')'
            && s[..left] == literal && s[left + 1..right] == inner && s[right + 1..] == rest
  {
  }

  lemma GroupFound(literal: string, inner: string, rest: string)
    requires '(' !in literal && Balanced(inner)
    ensures var s, left := literal + "(" + inner + ")" + rest, |literal|;
            FirstOpen(s) == left < |s| && Close(s, left + 1, 1) == left + 1 + |inner|
  {
    var s, left := literal + "(" + inner + ")" + rest, |literal|;
    GroupSlices(literal, inner, rest);
    assert FirstOpen(s) == left by { FirstOpenIs(s, left); }
    ClosesIff(s, left + 1, left + 1 + |inner|);
  }

  lemma ExpandGroup(g: Group, rest: string)
    requires GroupOk(g)
    ensures Expand(g.literal + "(" + Join(g.choices) + ")" + rest) == Product(g.literal, g.choices, Expand(rest))
  {
    assert SplitByPipe(Join(g.choices)) == g.choices by { SplitJoin(g.choices); }
    ExpandFound(g.literal, Join(g.choices), rest);
  }

  lemma ExpandFound(literal: string, inner: string, rest: string)
    requires '(' !in literal && Balanced(inner)
    ensures Expand(literal + "(" + inner + ")" + rest) == Product(literal, SplitByPipe(inner), Expand(rest))
  {
    var s, left, right := literal + "(" + inner + ")" + rest, |literal|, |literal| + 1 + |inner|;
    ExpandStep(s, left, right) by { GroupFound(literal, inner, rest); }
    GroupStep(s, left, right, literal, inner, rest) by { GroupSlices(literal, inner, rest); }
  }

  lemma ExpandStep(s: string, left: nat, right: nat)
    requires FirstOpen(s) == left < |s| && Close(s, left + 1, 1) == right
    ensures Expand(s) == ExpandGroupAt(s, left, right)
  {
  }

  lemma GroupStep(s: string, left: nat, right: nat, literal: string, inner: string, rest: string)
    requires left < right < |s| && s[..left] == literal && s[left + 1..right] == inner && s[right + 1..] == rest
    ensures ExpandGroupAt(s, left, right) == Product(literal, SplitByPipe(inner), Expand(rest))
  {
  }

  /** There is no group exactly if nothing closes the first opening parenthesis. */
  lemma NoGroupIff(t: string)
    ensures NoGroup(t) <==> forall l: nat, q: nat :: !FirstGroup(t, l, q)
  {
    forall l: nat, q: nat | FirstGroup(t, l, q) ensures !NoGroup(t) {
      FirstOpenIs(t, l);
      ClosesIff(t, l + 1, q);
    }
    if !NoGroup(t) {
      var l := FirstOpen(t);
      var q := Close(t, l + 1, 1);
      ClosesIff(t, l + 1, q);
      assert FirstGroup(t, l, q);
    }
  }

  /** Expansion is the ordered cartesian product of the choices. */
  lemma {:induction false} ExpandsToAllChoices(p: Pattern)
    requires p.Ok()
    ensures |Expand(p.Text())| == p.Size()
    ensures forall k :: 0 <= k < p.Size() ==> Expand(p.Text())[k] == Choice(p, k)
    decreases |p.groups|
  {
    if p.groups == [] {
      SplitJoin(p.tail);
    } else {
      var g, rest := p.groups[0], p.Rest();
      ExpandsToAllChoices(rest);
      ExpandGroup(g, rest.Text());
      ProductSize(g.literal, g.choices, Expand(rest.Text()));
      forall k | 0 <= k < p.Size() ensures Expand(p.Text())[k] == Choice(p, k) {
        ChoiceInProduct(p, Expand(rest.Text()), k);
      }
    }
  }

  lemma ChoiceInProduct(p: Pattern, suffixes: seq<string>, k: nat)
    requires p.Ok() && p.groups != [] && k < p.Size() && |suffixes| == p.Rest().Size()
    requires forall j :: 0 <= j < |suffixes| ==> suffixes[j] == Choice(p.Rest(), j)
    ensures k < |Product(p.groups[0].literal, p.groups[0].choices, suffixes)|
    ensures Product(p.groups[0].literal, p.groups[0].choices, suffixes)[k] == Choice(p, k)
  {
    var g, m := p.groups[0], |suffixes|;
    DigitBounds(k, |g.choices|, m);
    InProduct(g.literal, g.choices, suffixes, k, k / m, k % m);
    assert suffixes[k % m] == Choice(p.Rest(), k % m);
  }

  lemma InProduct(prefix: string, parts: seq<string>, suffixes: seq<string>, k: nat, q: nat, r: nat)
    requires q < |parts| && r < |suffixes| && q * |suffixes| + r == k
    ensures k < |Product(prefix, parts, suffixes)| && Product(prefix, parts, suffixes)[k] == prefix + parts[q] + suffixes[r]
  {
    ProductAt(prefix, parts, suffixes, q, r);
  }

  lemma PatternCons(g: Group, rest: Pattern)
    requires GroupOk(g) && rest.Ok()
    ensures var p := Pattern([g] + rest.groups, rest.tail);
            p.Ok() && p.Text() == g.literal + "(" + Join(g.choices) + ")" + rest.Text()
  {
    var p := Pattern([g] + rest.groups, rest.tail);
    assert p.groups[1..] == rest.groups;
    assert p.Rest() == rest;
  }

  lemma GroupBalanced(s: string, left: nat, right: nat)
    requires left < |s| && right == Close(s, left + 1, 1) < |s|
    ensures s[right] == ')' && Balanced(s[left + 1..right])
  {
    ClosesIff(s, left + 1, right);
  }

  lemma Parted(s: string, left: nat, right: nat)
    requires left < right < |s| && s[left] == '(' && s[right] == ')'
    ensures s == s[..left] + "(" + s[left + 1..right] + ")" + s[right + 1..]
  {
  }

  /** Every text is such a pattern, so expansion is a cartesian product whatever the text. */
  lemma {:induction false} EveryTextIsAPattern(s: string) returns (p: Pattern)
    ensures p.Ok() && p.Text() == s
    decreases |s|
  {
    var left := FirstOpen(s);
    if left == |s| || Close(s, left + 1, 1) == |s| {
      JoinSplit(s);
      p := Pattern([], SplitByPipe(s));
    } else {
      var right := Close(s, left + 1, 1);
      GroupBalanced(s, left, right);
      Parted(s, left, right);
      JoinSplit(s[left + 1..right]);
      var rest := EveryTextIsAPattern(s[right + 1..]);
      var g := Group(s[..left], SplitByPipe(s[left + 1..right]));
      PatternCons(g, rest);
      p := Pattern([g] + rest.groups, rest.tail);
    }
  }
}
