/** Access rules and the SQL condition they are translated to.  The condition is
    a list of tokens; an independent recursive-descent parser with SQL's
    precedences (OR below AND below NOT) says what it means. */
module AccessRules {
  import opened Prelude

  datatype CompareOp = Equal | NotEqual | Less | LessEqual | Greater | GreaterEqual
  datatype Namespace = Resource | SelfRow
  datatype RuleValue = Lit(n: int) | AuthUserId | Column(namespace: Namespace, name: string)
  datatype Rule =
    | Comparison(left: RuleValue, op: CompareOp, right: RuleValue)
    | And(a: Rule, b: Rule)
    | Or(a: Rule, b: Rule)
    | Not(inner: Rule)

  // ---------------------------------------------------------------------
  // Translation
  // ---------------------------------------------------------------------

  datatype Token = Open | Close | AndWord | OrWord | NotWord | Placeholder | Name(name: string) | Compare(op: CompareOp)
  datatype Clause = Clause(tokens: seq<Token>, params: seq<int>)

  function TranslateValue(v: RuleValue, uid: Option<int>): Option<Clause> {
    match v
    case Lit(n) => Some(Clause([Placeholder], [n]))
    case AuthUserId => Some(Clause([Placeholder], [if uid.Some? then uid.value else 0]))
    case Column(Resource, name) => Some(Clause([Name(name)], []))
    case Column(SelfRow, _) => None
  }

  function Translate(rule: Rule, uid: Option<int>): Option<Clause> {
    match rule
    case Comparison(left, op, right) =>
      var l, r := TranslateValue(left, uid), TranslateValue(right, uid);
      if l.None? || r.None? then None
      else Some(Clause(l.value.tokens + [Compare(op)] + r.value.tokens, l.value.params + r.value.params))
    case And(a, b) =>
      var l, r := Translate(a, uid), Translate(b, uid);
      if l.None? || r.None? then None
      else Some(Clause([Open] + l.value.tokens + [Close, AndWord, Open] + r.value.tokens + [Close],
                       l.value.params + r.value.params))
    case Or(a, b) =>
      var l, r := Translate(a, uid), Translate(b, uid);
      if l.None? || r.None? then None
      else Some(Clause([Open] + l.value.tokens + [Close, OrWord, Open] + r.value.tokens + [Close],
                       l.value.params + r.value.params))
    case Not(inner) =>
      var i := Translate(inner, uid);
      if i.None? then None else Some(Clause([NotWord, Open] + i.value.tokens + [Close], i.value.params))
  }

  predicate MentionsSelf(rule: Rule) {
    match rule
    case Comparison(left, _, right) =>
      (left.Column? && left.namespace.SelfRow?) || (right.Column? && right.namespace.SelfRow?)
    case And(a, b) => MentionsSelf(a) || MentionsSelf(b)
    case Or(a, b) => MentionsSelf(a) || MentionsSelf(b)
    case Not(inner) => MentionsSelf(inner)
  }

  /** Translation fails exactly when a self-row column occurs. */
  lemma {:induction false} FailsIffSelf(rule: Rule, uid: Option<int>)
    ensures Translate(rule, uid).None? <==> MentionsSelf(rule)
  {
    match rule
    case Comparison(_, _, _) =>
    case And(a, b) => FailsIffSelf(a, uid); FailsIffSelf(b, uid);
    case Or(a, b) => FailsIffSelf(a, uid); FailsIffSelf(b, uid);
    case Not(inner) => FailsIffSelf(inner, uid);
  }

  // ---------------------------------------------------------------------
  // Parsing SQL conditions
  // ---------------------------------------------------------------------

  datatype Operand = Hole(k: nat) | Field(name: string)
  datatype Sql =
    | SqlCompare(left: Operand, op: CompareOp, right: Operand)
    | SqlAnd(a: Sql, b: Sql)
    | SqlOr(a: Sql, b: Sql)
    | SqlNot(inner: Sql)

  // `next` numbers the placeholders from left to right.
  datatype Parsed<+T> = Stuck | Parsed(node: T, rest: seq<Token>, next: nat)

  function ParseOperand(ts: seq<Token>, next: nat): (p: Parsed<Operand>)
    ensures p.Parsed? ==> |p.rest| < |ts|
  {
    if ts == [] then Stuck
    else match ts[0]
      case Placeholder => Parsed(Hole(next), ts[1..], next + 1)
      case Name(name) => Parsed(Field(name), ts[1..], next)
      case _ => Stuck
  }

  function ParseOr(ts: seq<Token>, next: nat): (p: Parsed<Sql>)
    ensures p.Parsed? ==> |p.rest| < |ts|
    decreases |ts|, 4
  {
    var first := ParseAnd(ts, next);
    if first.Stuck? then Stuck else OrRest(first.node, first.rest, first.next)
  }

  function OrRest(left: Sql, ts: seq<Token>, next: nat): (p: Parsed<Sql>)
    ensures p.Parsed? ==> |p.rest| <= |ts|
    decreases |ts|, 5
  {
    if ts == [] || ts[0] != OrWord then Parsed(left, ts, next)
    else
      var right := ParseAnd(ts[1..], next);
      if right.Stuck? then Stuck else OrRest(SqlOr(left, right.node), right.rest, right.next)
  }

  function ParseAnd(ts: seq<Token>, next: nat): (p: Parsed<Sql>)
    ensures p.Parsed? ==> |p.rest| < |ts|
    decreases |ts|, 3
  {
    var first := ParseNot(ts, next);
    if first.Stuck? then Stuck else AndRest(first.node, first.rest, first.next)
  }

  function AndRest(left: Sql, ts: seq<Token>, next: nat): (p: Parsed<Sql>)
    ensures p.Parsed? ==> |p.rest| <= |ts|
    decreases |ts|, 5
  {
    if ts == [] || ts[0] != AndWord then Parsed(left, ts, next)
    else
      var right := ParseNot(ts[1..], next);
      if right.Stuck? then Stuck else AndRest(SqlAnd(left, right.node), right.rest, right.next)
  }

  function ParseNot(ts: seq<Token>, next: nat): (p: Parsed<Sql>)
    ensures p.Parsed? ==> |p.rest| < |ts|
    decreases |ts|, 2
  {
    if ts != [] && ts[0] == NotWord then
      var inner := ParseNot(ts[1..], next);
      if inner.Stuck? then Stuck else Parsed(SqlNot(inner.node), inner.rest, inner.next)
    else ParsePrimary(ts, next)
  }

  function ParsePrimary(ts: seq<Token>, next: nat): (p: Parsed<Sql>)
    ensures p.Parsed? ==> |p.rest| < |ts|
    decreases |ts|, 1
  {
    if ts == [] then Stuck
    else if ts[0] == Open then
      var inner := ParseOr(ts[1..], next);
      if inner.Stuck? || inner.rest == [] || inner.rest[0] != Close then Stuck
      else Parsed(inner.node, inner.rest[1..], inner.next)
    else
      var l := ParseOperand(ts, next);
      if l.Stuck? || l.rest == [] || !l.rest[0].Compare? then Stuck
      else
        var r := ParseOperand(l.rest[1..], l.next);
        if r.Stuck? then Stuck else Parsed(SqlCompare(l.node, l.rest[0].op, r.node), r.rest, r.next)
  }

  /** A whole condition: nothing may be left over. */
  function Parse(ts: seq<Token>): Option<(Sql, nat)> {
    var p := ParseOr(ts, 0);
    if p.Stuck? || p.rest != [] then None else Some((p.node, p.next))
  }

  // ---------------------------------------------------------------------
  // The translation parses back
  // ---------------------------------------------------------------------

  function HolesIn(v: RuleValue): nat { if v.Column? then 0 else 1 }

  function OperandOf(v: RuleValue, next: nat): Operand { if v.Column? then Field(v.name) else Hole(next) }

  function Holes(rule: Rule): nat {
    match rule
    case Comparison(left, _, right) => HolesIn(left) + HolesIn(right)
    case And(a, b) => Holes(a) + Holes(b)
    case Or(a, b) => Holes(a) + Holes(b)
    case Not(inner) => Holes(inner)
  }

  // The rule's shape, with placeholders numbered from `next` on.
  function SqlOf(rule: Rule, next: nat): Sql {
    match rule
    case Comparison(left, op, right) =>
      SqlCompare(OperandOf(left, next), op, OperandOf(right, next + HolesIn(left)))
    case And(a, b) => SqlAnd(SqlOf(a, next), SqlOf(b, next + Holes(a)))
    case Or(a, b) => SqlOr(SqlOf(a, next), SqlOf(b, next + Holes(a)))
    case Not(inner) => SqlNot(SqlOf(inner, next))
  }

  predicate Ends(rest: seq<Token>) { rest == [] || rest[0] == Close }

  lemma {:induction false} OperandBack(v: RuleValue, uid: Option<int>, next: nat, rest: seq<Token>)
    requires TranslateValue(v, uid).Some?
    ensures ParseOperand(TranslateValue(v, uid).value.tokens + rest, next) ==
      Parsed(OperandOf(v, next), rest, next + HolesIn(v))
    ensures TranslateValue(v, uid).value.tokens != [] && TranslateValue(v, uid).value.tokens[0] !in {Open, NotWord}
    ensures |TranslateValue(v, uid).value.params| == HolesIn(v)
  {
    assert (TranslateValue(v, uid).value.tokens + rest)[1..] == rest;
  }

  // A single term that nothing continues.
  lemma {:induction false} TermAlone(ts: seq<Token>, next: nat, x: Sql, rest: seq<Token>, after: nat)
    requires ParseNot(ts, next) == Parsed(x, rest, after) && Ends(rest)
    ensures ParseOr(ts, next) == Parsed(x, rest, after)
  {
    hide ParseNot;
    assert AndRest(x, rest, after) == Parsed(x, rest, after) == OrRest(x, rest, after);
  }

  lemma {:induction false} PrimaryBack(l: Operand, op: CompareOp, r: Operand, ts: seq<Token>, mid: seq<Token>,
                                       rest: seq<Token>, next: nat, nextMid: nat, after: nat)
    requires ts != [] && ts[0] != Open && mid != [] && mid[0] == Compare(op)
    requires ParseOperand(ts, next) == Parsed(l, mid, nextMid)
    requires ParseOperand(mid[1..], nextMid) == Parsed(r, rest, after)
    ensures ParsePrimary(ts, next) == Parsed(SqlCompare(l, op, r), rest, after)
  {
    hide ParseOperand, ParseOr;
  }

  // A comparison, then something that does not continue a condition.
  lemma {:induction false} ComparisonBack(left: RuleValue, op: CompareOp, right: RuleValue, uid: Option<int>,
                                          next: nat, rest: seq<Token>)
    requires TranslateValue(left, uid).Some? && TranslateValue(right, uid).Some? && Ends(rest)
    ensures var l, r := TranslateValue(left, uid).value.tokens, TranslateValue(right, uid).value.tokens;
      ParseOr(l + [Compare(op)] + r + rest, next)
        == Parsed(SqlOf(Comparison(left, op, right), next), rest, next + HolesIn(left) + HolesIn(right))
  {
    hide ParseOperand, ParseOr, ParsePrimary, TranslateValue, OperandOf, HolesIn;
    var l, r := TranslateValue(left, uid).value.tokens, TranslateValue(right, uid).value.tokens;
    var ts, tail := l + [Compare(op)] + r + rest, [Compare(op)] + r + rest;
    var mid, after := next + HolesIn(left), next + HolesIn(left) + HolesIn(right);
    OperandBack(left, uid, next, tail);
    OperandBack(right, uid, mid, rest);
    assert ts == l + tail && ts[0] == l[0] && tail[1..] == r + rest;
    PrimaryBack(OperandOf(left, next), op, OperandOf(right, mid), ts, tail, rest, next, mid, after);
    TermAlone(ts, next, SqlOf(Comparison(left, op, right), next), rest, after);
  }

  // A condition in parentheses.
  lemma {:induction false} GroupBack(inner: seq<Token>, next: nat, rest: seq<Token>, node: Sql, after: nat)
    requires ParseOr(inner + ([Close] + rest), next) == Parsed(node, [Close] + rest, after)
    ensures ParseNot([Open] + inner + [Close] + rest, next) == Parsed(node, rest, after)
  {
    var ts := [Open] + inner + [Close] + rest;
    assert ts[0] == Open && ts[1..] == inner + ([Close] + rest);
    assert ([Close] + rest)[1..] == rest;
    hide ParseOr;
    assert ParsePrimary(ts, next) == Parsed(node, rest, after);
  }

  lemma {:induction false} PairBack(word: Token, l: seq<Token>, r: seq<Token>, next: nat, mid: nat, after: nat,
                                    x: Sql, y: Sql, rest: seq<Token>)
    requires word in {AndWord, OrWord} && Ends(rest)
    requires var tail := [word, Open] + r + [Close] + rest;
      ParseNot([Open] + l + [Close] + tail, next) == Parsed(x, tail, mid)
    requires ParseNot([Open] + r + [Close] + rest, mid) == Parsed(y, rest, after)
    ensures ParseOr([Open] + l + [Close, word, Open] + r + [Close] + rest, next)
         == Parsed(if word == AndWord then SqlAnd(x, y) else SqlOr(x, y), rest, after)
  {
    var tail := [word, Open] + r + [Close] + rest;
    var ts := [Open] + l + [Close, word, Open] + r + [Close] + rest;
    assert ts == [Open] + l + [Close] + tail;
    assert tail[0] == word && tail[1..] == [Open] + r + [Close] + rest;
    hide ParseNot;
    if word == AndWord {
      assert AndRest(SqlAnd(x, y), rest, after) == Parsed(SqlAnd(x, y), rest, after);
      assert AndRest(x, tail, mid) == Parsed(SqlAnd(x, y), rest, after);
    } else {
      assert AndRest(x, tail, mid) == Parsed(x, tail, mid);
      assert AndRest(y, rest, after) == Parsed(y, rest, after);
      assert ParseAnd(tail[1..], mid) == Parsed(y, rest, after);
      assert OrRest(SqlOr(x, y), rest, after) == Parsed(SqlOr(x, y), rest, after);
    }
  }

  lemma {:induction false} NotBack(inner: seq<Token>, next: nat, after: nat, x: Sql, rest: seq<Token>)
    requires Ends(rest) && ParseNot([Open] + inner + [Close] + rest, next) == Parsed(x, rest, after)
    ensures ParseOr([NotWord, Open] + inner + [Close] + rest, next) == Parsed(SqlNot(x), rest, after)
  {
    var ts := [NotWord, Open] + inner + [Close] + rest;
    assert ts[0] == NotWord && ts[1..] == [Open] + inner + [Close] + rest;
    assert ParseNot(ts, next) == Parsed(SqlNot(x), rest, after);
    TermAlone(ts, next, SqlNot(x), rest, after);
  }

  lemma {:induction false} ParsesBack(rule: Rule, uid: Option<int>, next: nat, rest: seq<Token>)
    requires Translate(rule, uid).Some? && Ends(rest)
    ensures ParseOr(Translate(rule, uid).value.tokens + rest, next) ==
      Parsed(SqlOf(rule, next), rest, next + Holes(rule))
    ensures |Translate(rule, uid).value.params| == Holes(rule)
    decreases rule
  {
    hide ParseOr, ParseNot, ParseOperand, TranslateValue, OperandOf, HolesIn;
    match rule
    case Comparison(left, op, right) =>
      OperandBack(left, uid, next, rest);
      OperandBack(right, uid, next, rest);
      ComparisonBack(left, op, right, uid, next, rest);
    case And(a, b) =>
      var r := Translate(b, uid).value.tokens;
      ParsesBack(a, uid, next, [Close] + ([AndWord, Open] + r + [Close] + rest));
      ParsesBack(b, uid, next + Holes(a), [Close] + rest);
      BothBack(AndWord, a, b, uid, next, rest);
    case Or(a, b) =>
      var r := Translate(b, uid).value.tokens;
      ParsesBack(a, uid, next, [Close] + ([OrWord, Open] + r + [Close] + rest));
      ParsesBack(b, uid, next + Holes(a), [Close] + rest);
      BothBack(OrWord, a, b, uid, next, rest);
    case Not(inner) =>
      var i := Translate(inner, uid).value.tokens;
      ParsesBack(inner, uid, next, [Close] + rest);
      GroupBack(i, next, rest, SqlOf(inner, next), next + Holes(inner));
      NotBack(i, next, next + Holes(inner), SqlOf(inner, next), rest);
  }

  lemma {:induction false} BothBack(word: Token, a: Rule, b: Rule, uid: Option<int>, next: nat, rest: seq<Token>)
    requires word in {AndWord, OrWord} && Ends(rest)
    requires Translate(a, uid).Some? && Translate(b, uid).Some?
    requires var tail := [word, Open] + Translate(b, uid).value.tokens + [Close] + rest;
      ParseOr(Translate(a, uid).value.tokens + ([Close] + tail), next) ==
        Parsed(SqlOf(a, next), [Close] + tail, next + Holes(a))
    requires ParseOr(Translate(b, uid).value.tokens + ([Close] + rest), next + Holes(a))
          == Parsed(SqlOf(b, next + Holes(a)), [Close] + rest, next + Holes(a) + Holes(b))
    ensures var l, r := Translate(a, uid).value.tokens, Translate(b, uid).value.tokens;
      ParseOr([Open] + l + [Close, word, Open] + r + [Close] + rest, next)
        == Parsed(if word == AndWord then SqlOf(And(a, b), next) else SqlOf(Or(a, b), next),
                  rest, next + Holes(a) + Holes(b))
  {
    hide ParseOr, ParseNot;
    var l, r, mid := Translate(a, uid).value.tokens, Translate(b, uid).value.tokens, next + Holes(a);
    var tail := [word, Open] + r + [Close] + rest;
    GroupBack(l, next, tail, SqlOf(a, next), mid);
    GroupBack(r, mid, rest, SqlOf(b, mid), mid + Holes(b));
    PairBack(word, l, r, next, mid, mid + Holes(b), SqlOf(a, next), SqlOf(b, mid), rest);
  }

  // ---------------------------------------------------------------------
  // What the clause means
  // ---------------------------------------------------------------------

  function FillOperand(o: Operand, params: seq<int>): RuleValue {
    match o
    case Hole(k) => Lit(if k < |params| then params[k] else 0)
    case Field(name) => Column(Resource, name)
  }

  /** The condition as a rule again, with parameters in their places. */
  function Fill(e: Sql, params: seq<int>): Rule {
    match e
    case SqlCompare(l, op, r) => Comparison(FillOperand(l, params), op, FillOperand(r, params))
    case SqlAnd(a, b) => And(Fill(a, params), Fill(b, params))
    case SqlOr(a, b) => Or(Fill(a, params), Fill(b, params))
    case SqlNot(inner) => Not(Fill(inner, params))
  }

  function KnownValue(v: RuleValue, uid: Option<int>): RuleValue {
    if v.AuthUserId? then Lit(if uid.Some? then uid.value else 0) else v
  }

  /** The rule with the user id written in. */
  function Known(rule: Rule, uid: Option<int>): Rule {
    match rule
    case Comparison(l, op, r) => Comparison(KnownValue(l, uid), op, KnownValue(r, uid))
    case And(a, b) => And(Known(a, uid), Known(b, uid))
    case Or(a, b) => Or(Known(a, uid), Known(b, uid))
    case Not(inner) => Not(Known(inner, uid))
  }

  // The placeholders of a condition, from left to right.
  function Order(e: Sql): seq<nat> {
    match e
    case SqlCompare(l, _, r) => (if l.Hole? then [l.k] else []) + (if r.Hole? then [r.k] else [])
    case SqlAnd(a, b) => Order(a) + Order(b)
    case SqlOr(a, b) => Order(a) + Order(b)
    case SqlNot(inner) => Order(inner)
  }

  function UpTo(from: nat, n: nat): seq<nat> { seq(n, k requires 0 <= k < n => from + k) }

  lemma UpToConcat(from: nat, m: nat, n: nat)
    ensures UpTo(from, m) + UpTo(from + m, n) == UpTo(from, m + n)
  {
  }

  lemma {:induction false} OrderBack(rule: Rule, next: nat)
    ensures Order(SqlOf(rule, next)) == UpTo(next, Holes(rule))
  {
    match rule
    case Comparison(left, op, right) => UpToConcat(next, HolesIn(left), HolesIn(right));
    case And(a, b) =>
      hide UpTo;
      OrderBack(a, next);
      OrderBack(b, next + Holes(a));
      UpToConcat(next, Holes(a), Holes(b));
    case Or(a, b) =>
      hide UpTo;
      OrderBack(a, next);
      OrderBack(b, next + Holes(a));
      UpToConcat(next, Holes(a), Holes(b));
    case Not(inner) => OrderBack(inner, next);
  }

  lemma {:induction false} FillComparison(left: RuleValue, op: CompareOp, right: RuleValue, uid: Option<int>,
                                          before: seq<int>, after: seq<int>)
    requires TranslateValue(left, uid).Some? && TranslateValue(right, uid).Some?
    ensures var p, q := TranslateValue(left, uid).value.params, TranslateValue(right, uid).value.params;
      && |p| == HolesIn(left) && |q| == HolesIn(right)
      && FillOperand(OperandOf(left, |before|), before + (p + q) + after) == KnownValue(left, uid)
      && FillOperand(OperandOf(right, |before| + |p|), before + (p + q) + after) == KnownValue(right, uid)
  {
  }

  lemma {:induction false} FillBack(rule: Rule, uid: Option<int>, before: seq<int>, after: seq<int>)
    requires Translate(rule, uid).Some?
    ensures |Translate(rule, uid).value.params| == Holes(rule)
    ensures Fill(SqlOf(rule, |before|), before + Translate(rule, uid).value.params + after) == Known(rule, uid)
    decreases rule
  {
    hide FillOperand, KnownValue, OperandOf;
    match rule
    case Comparison(left, op, right) => FillComparison(left, op, right, uid, before, after);
    case And(a, b) =>
      FillBoth(a, b, uid, before, after);
      FillBack(a, uid, before, Translate(b, uid).value.params + after);
      FillBack(b, uid, before + Translate(a, uid).value.params, after);
    case Or(a, b) =>
      FillBoth(a, b, uid, before, after);
      FillBack(a, uid, before, Translate(b, uid).value.params + after);
      FillBack(b, uid, before + Translate(a, uid).value.params, after);
    case Not(inner) => FillBack(inner, uid, before, after);
  }

  lemma {:induction false} FillBoth(a: Rule, b: Rule, uid: Option<int>, before: seq<int>, after: seq<int>)
    requires Translate(a, uid).Some? && Translate(b, uid).Some?
    ensures var p, q := Translate(a, uid).value.params, Translate(b, uid).value.params;
      && before + (p + q) + after == before + p + (q + after)
      && before + (p + q) + after == (before + p) + q + after
  {
  }

  /** The clause, parsed, is the rule with the user id in its place; it uses each
      parameter once, from left to right, and none is left over. */
  lemma {:induction false} ClauseIsRule(rule: Rule, uid: Option<int>) returns (e: Sql)
    requires !MentionsSelf(rule)
    ensures Translate(rule, uid).Some?
    ensures var clause := Translate(rule, uid).value;
      && Parse(clause.tokens) == Some((e, |clause.params|))
      && Order(e) == UpTo(0, |clause.params|)
      && Fill(e, clause.params) == Known(rule, uid)
  {
    hide ParseOr, Translate, SqlOf, Fill, Known, Order, UpTo, MentionsSelf;
    FailsIffSelf(rule, uid);
    var clause := Translate(rule, uid).value;
    e := SqlOf(rule, 0);
    ParsesBack(rule, uid, 0, []);
    assert clause.tokens + [] == clause.tokens;
    FillBack(rule, uid, [], []);
    OrderBack(rule, 0);
    assert [] + clause.params + [] == clause.params;
  }

  // ---------------------------------------------------------------------
  // Evaluation
  // ---------------------------------------------------------------------

  type Row = map<string, int>   // the columns that are present

  function Holds(op: CompareOp, l: int, r: int): bool {
    match op
    case Equal => l == r
    case NotEqual => l != r
    case Less => l < r
    case LessEqual => l <= r
    case Greater => l > r
    case GreaterEqual => l >= r
  }

  // A value, if there is one; a self-row column is an error.
  datatype Looked = Broken | Absent | Present(n: int)

  function Look(v: RuleValue, uid: Option<int>, row: Row): Looked {
    match v
    case Lit(n) => Present(n)
    case AuthUserId => if uid.Some? then Present(uid.value) else Absent
    case Column(Resource, name) => if name in row then Present(row[name]) else Absent
    case Column(SelfRow, _) => Broken
  }

  /** The rule's own evaluation: a missing operand makes a comparison false, and
      AND and OR stop at the first operand that decides. */
  function Evaluate(rule: Rule, uid: Option<int>, row: Row): Option<bool> {
    match rule
    case Comparison(left, op, right) =>
      var l, r := Look(left, uid, row), Look(right, uid, row);
      if l.Broken? || r.Broken? then None
      else Some(l.Present? && r.Present? && Holds(op, l.n, r.n))
    case And(a, b) =>
      var l := Evaluate(a, uid, row);
      if l == Some(true) then Evaluate(b, uid, row) else l
    case Or(a, b) =>
      var l := Evaluate(a, uid, row);
      if l == Some(false) then Evaluate(b, uid, row) else l
    case Not(inner) =>
      var i := Evaluate(inner, uid, row);
      if i.None? then None else Some(!i.value)
  }

  datatype Truth = True | False | Unknown

  function Negate(t: Truth): Truth { match t case True => False case False => True case Unknown => Unknown }

  function Both(a: Truth, b: Truth): Truth {
    if a == False || b == False then False else if a == True && b == True then True else Unknown
  }

  function Value(o: Operand, params: seq<int>, row: Row): Option<int> {
    match o
    case Hole(k) => if k < |params| then Some(params[k]) else None
    case Field(name) => if name in row then Some(row[name]) else None
  }

  /** SQL's three-valued evaluation; a row is selected when the result is True. */
  function Select(e: Sql, params: seq<int>, row: Row): Truth {
    match e
    case SqlCompare(left, op, right) =>
      var l, r := Value(left, params, row), Value(right, params, row);
      if l.None? || r.None? then Unknown else if Holds(op, l.value, r.value) then True else False
    case SqlAnd(a, b) => Both(Select(a, params, row), Select(b, params, row))
    case SqlOr(a, b) => Negate(Both(Negate(Select(a, params, row)), Negate(Select(b, params, row))))
    case SqlNot(inner) => Negate(Select(inner, params, row))
  }

  /** What the six operators mean, for the rule and for SQL alike. */
  lemma {:induction false} Comparisons(a: int, b: int, uid: Option<int>, row: Row)
    ensures Evaluate(Comparison(Lit(a), Equal, Lit(b)), uid, row) == Some(a == b)
    ensures Evaluate(Comparison(Lit(a), NotEqual, Lit(b)), uid, row) == Some(a != b)
    ensures Evaluate(Comparison(Lit(a), Less, Lit(b)), uid, row) == Some(a < b)
    ensures Evaluate(Comparison(Lit(a), LessEqual, Lit(b)), uid, row) == Some(a <= b)
    ensures Evaluate(Comparison(Lit(a), Greater, Lit(b)), uid, row) == Some(a > b)
    ensures Evaluate(Comparison(Lit(a), GreaterEqual, Lit(b)), uid, row) == Some(a >= b)
    ensures Select(SqlCompare(Hole(0), Equal, Hole(1)), [a, b], row) == if a == b then True else False
    ensures Select(SqlCompare(Hole(0), NotEqual, Hole(1)), [a, b], row) == if a != b then True else False
    ensures Select(SqlCompare(Hole(0), Less, Hole(1)), [a, b], row) == if a < b then True else False
    ensures Select(SqlCompare(Hole(0), LessEqual, Hole(1)), [a, b], row) == if a <= b then True else False
    ensures Select(SqlCompare(Hole(0), Greater, Hole(1)), [a, b], row) == if a > b then True else False
    ensures Select(SqlCompare(Hole(0), GreaterEqual, Hole(1)), [a, b], row) == if a >= b then True else False
  {
  }

  predicate AllPresent(rule: Rule, row: Row) {
    match rule
    case Comparison(l, _, r) => (l.Column? ==> l.name in row) && (r.Column? ==> r.name in row)
    case And(a, b) => AllPresent(a, row) && AllPresent(b, row)
    case Or(a, b) => AllPresent(a, row) && AllPresent(b, row)
    case Not(inner) => AllPresent(inner, row)
  }

  predicate NotFree(rule: Rule) {
    match rule
    case Comparison(_, _, _) => true
    case And(a, b) => NotFree(a) && NotFree(b)
    case Or(a, b) => NotFree(a) && NotFree(b)
    case Not(_) => false
  }

  // `e` filled with its parameters is the rule, and has no placeholder too many.
  ghost predicate Realizes(e: Sql, params: seq<int>, rule: Rule, uid: Option<int>) {
    Fill(e, params) == Known(rule, uid) && forall k | k in Order(e) :: k < |params|
  }

  // The user id that is written in: an absent user is bound as 0.
  function Bound(uid: Option<int>): Option<int> { Some(if uid.Some? then uid.value else 0) }

  lemma {:induction false} ValueAgrees(o: Operand, params: seq<int>, v: RuleValue, uid: Option<int>, row: Row)
    requires FillOperand(o, params) == KnownValue(v, uid) && (o.Hole? ==> o.k < |params|)
    ensures Look(v, Bound(uid), row) == match Value(o, params, row) case None => Absent case Some(n) => Present(n)
  {
  }

  lemma {:induction false} RealizesParts(e: Sql, params: seq<int>, rule: Rule, uid: Option<int>)
    requires Realizes(e, params, rule, uid)
    ensures rule.And? ==> e.SqlAnd? && Realizes(e.a, params, rule.a, uid) && Realizes(e.b, params, rule.b, uid)
    ensures rule.Or? ==> e.SqlOr? && Realizes(e.a, params, rule.a, uid) && Realizes(e.b, params, rule.b, uid)
    ensures rule.Not? ==> e.SqlNot? && Realizes(e.inner, params, rule.inner, uid)
  {
    if e.SqlAnd? || e.SqlOr? {
      assert forall k | k in Order(e.a) :: k in Order(e);
      assert forall k | k in Order(e.b) :: k in Order(e);
    } else if e.SqlNot? {
      assert forall k | k in Order(e.inner) :: k in Order(e);
    }
  }

  function Opposite(op: CompareOp): CompareOp {
    match op
    case Equal => NotEqual
    case NotEqual => Equal
    case Less => GreaterEqual
    case LessEqual => Greater
    case Greater => LessEqual
    case GreaterEqual => Less
  }

  /** The rule (negated, if `neg`) with every NOT moved down to the comparisons
      and absorbed there. */
  function Pushed(rule: Rule, neg: bool): Rule {
    match rule
    case Comparison(left, op, right) => Comparison(left, if neg then Opposite(op) else op, right)
    case And(a, b) => if neg then Or(Pushed(a, neg), Pushed(b, neg)) else And(Pushed(a, neg), Pushed(b, neg))
    case Or(a, b) => if neg then And(Pushed(a, neg), Pushed(b, neg)) else Or(Pushed(a, neg), Pushed(b, neg))
    case Not(inner) => Pushed(inner, !neg)
  }

  lemma {:induction false} EvaluatePair(a: Rule, b: Rule, uid: Option<int>, row: Row)
    requires Evaluate(a, uid, row).Some? && Evaluate(b, uid, row).Some?
    ensures Evaluate(And(a, b), uid, row) == Some(Evaluate(a, uid, row).value && Evaluate(b, uid, row).value)
    ensures Evaluate(Or(a, b), uid, row) == Some(Evaluate(a, uid, row).value || Evaluate(b, uid, row).value)
  {
  }

  /** SQL's answer is True exactly when the pushed rule accepts, and False exactly
      when the pushed negation does. */
  lemma {:induction false} SelectIsPushed(e: Sql, params: seq<int>, rule: Rule, uid: Option<int>, row: Row)
    requires Realizes(e, params, rule, uid) && !MentionsSelf(rule)
    ensures Evaluate(Pushed(rule, false), Bound(uid), row) == Some(Select(e, params, row) == True)
    ensures Evaluate(Pushed(rule, true), Bound(uid), row) == Some(Select(e, params, row) == False)
  {
    RealizesParts(e, params, rule, uid);
    hide Realizes, Evaluate;
    match rule
    case Comparison(left, op, right) =>
      ComparisonAgrees(e, params, left, op, right, uid, row);
    case And(a, b) =>
      SelectIsPushed(e.a, params, a, uid, row);
      SelectIsPushed(e.b, params, b, uid, row);
      EvaluatePair(Pushed(a, false), Pushed(b, false), Bound(uid), row);
      EvaluatePair(Pushed(a, true), Pushed(b, true), Bound(uid), row);
    case Or(a, b) =>
      SelectIsPushed(e.a, params, a, uid, row);
      SelectIsPushed(e.b, params, b, uid, row);
      EvaluatePair(Pushed(a, false), Pushed(b, false), Bound(uid), row);
      EvaluatePair(Pushed(a, true), Pushed(b, true), Bound(uid), row);
    case Not(inner) => SelectIsPushed(e.inner, params, inner, uid, row);
  }

  lemma {:induction false} ComparisonAgrees(e: Sql, params: seq<int>, left: RuleValue, op: CompareOp, right: RuleValue,
                                            uid: Option<int>, row: Row)
    requires var rule := Comparison(left, op, right); Realizes(e, params, rule, uid) && !MentionsSelf(rule)
    ensures Evaluate(Comparison(left, op, right), Bound(uid), row) == Some(Select(e, params, row) == True)
    ensures Evaluate(Comparison(left, Opposite(op), right), Bound(uid), row) == Some(Select(e, params, row) == False)
  {
    hide FillOperand, KnownValue, Holds, Opposite, Look, Value;
    assert e.left.Hole? ==> e.left.k in Order(e);
    assert e.right.Hole? ==> e.right.k in Order(e);
    ValueAgrees(e.left, params, left, uid, row);
    ValueAgrees(e.right, params, right, uid, row);
    var l, r := Value(e.left, params, row), Value(e.right, params, row);
    if l.Some? && r.Some? { OppositeHolds(op, l.value, r.value); }
  }

  lemma OppositeHolds(op: CompareOp, l: int, r: int)
    ensures Holds(Opposite(op), l, r) == !Holds(op, l, r)
  {
  }

  /** Moving NOT down never accepts more, and changes nothing when every operand
      is there or there is no NOT. */
  lemma {:induction false} PushedBelow(rule: Rule, uid: int, row: Row)
    requires !MentionsSelf(rule)
    ensures var r := Evaluate(rule, Some(uid), row);
      var p, q := Evaluate(Pushed(rule, false), Some(uid), row), Evaluate(Pushed(rule, true), Some(uid), row);
      && r.Some? && p.Some? && q.Some?
      && (p.value ==> r.value) && (q.value ==> !r.value)
      && (AllPresent(rule, row) ==> p == r && q.value == !r.value)
      && (NotFree(rule) ==> p == r)
  {
    match rule
    case Comparison(left, op, right) =>
    case And(a, b) =>
      hide Evaluate;
      PushedBelow(a, uid, row);
      PushedBelow(b, uid, row);
      EvaluatePair(a, b, Some(uid), row);
      EvaluatePair(Pushed(a, false), Pushed(b, false), Some(uid), row);
      EvaluatePair(Pushed(a, true), Pushed(b, true), Some(uid), row);
    case Or(a, b) =>
      hide Evaluate;
      PushedBelow(a, uid, row);
      PushedBelow(b, uid, row);
      EvaluatePair(a, b, Some(uid), row);
      EvaluatePair(Pushed(a, false), Pushed(b, false), Some(uid), row);
      EvaluatePair(Pushed(a, true), Pushed(b, true), Some(uid), row);
    case Not(inner) => PushedBelow(inner, uid, row);
  }

  /** End to end, for every rule, user and row: translate, parse, select.  The
      clause selects exactly the rows that the pushed rule accepts for the user
      that was bound, so clause and rule agree on a row if and only if moving NOT
      down and binding the user leave the rule's answer there as it is.  For a
      present user a selected row is always accepted, and the two agree when all
      columns are present or there is no NOT. */
  lemma {:induction false} ClauseSelects(rule: Rule, uid: Option<int>, row: Row)
    requires !MentionsSelf(rule)
    ensures Translate(rule, uid).Some? && Parse(Translate(rule, uid).value.tokens).Some?
    ensures var clause := Translate(rule, uid).value;
      var selected := Select(Parse(clause.tokens).value.0, clause.params, row) == True;
      && Evaluate(Pushed(rule, false), Bound(uid), row) == Some(selected)
      && (Evaluate(rule, uid, row) == Some(selected) <==>
          Evaluate(rule, uid, row) == Evaluate(Pushed(rule, false), Bound(uid), row))
      && (uid.Some? && selected ==> Evaluate(rule, uid, row) == Some(true))
      && (uid.Some? && (AllPresent(rule, row) || NotFree(rule)) ==> Evaluate(rule, uid, row) == Some(selected))
  {
    hide Parse, Order, Fill, Known, Select, Evaluate, Translate;
    var e := ClauseIsRule(rule, uid);
    SelectIsPushed(e, Translate(rule, uid).value.params, rule, uid, row);
    if uid.Some? { PushedBelow(rule, uid.value, row); }
  }

  /** Under NOT a missing column splits them: the rule accepts the row, the
      condition does not select it. */
  lemma {:induction false} MissingUnderNot()
    ensures var rule := Not(Comparison(Column(Resource, "owner"), Equal, AuthUserId));
      var clause := Translate(rule, Some(7)).value;
      && Evaluate(rule, Some(7), map[]) == Some(true)
      && Parse(clause.tokens).Some?
      && Select(Parse(clause.tokens).value.0, clause.params, map[]) == Unknown
  {
    var rule := Not(Comparison(Column(Resource, "owner"), Equal, AuthUserId));
    ParsesBack(rule, Some(7), 0, []);
    hide ParseOr;
    assert Translate(rule, Some(7)).value.tokens + [] == Translate(rule, Some(7)).value.tokens;
  }

  predicate MentionsUser(rule: Rule) {
    match rule
    case Comparison(left, _, right) => left.AuthUserId? || right.AuthUserId?
    case And(a, b) => MentionsUser(a) || MentionsUser(b)
    case Or(a, b) => MentionsUser(a) || MentionsUser(b)
    case Not(inner) => MentionsUser(inner)
  }

  /** An absent user's clause is that of user 0.  The rule itself treats the user
      as missing; its answer is that for user 0 when the user does not occur, and
      without NOT it accepts no more than for user 0. */
  lemma {:induction false} AbsentUser(rule: Rule, row: Row)
    requires !MentionsSelf(rule)
    ensures Translate(rule, None) == Translate(rule, Some(0))
    ensures var r, z := Evaluate(rule, None, row), Evaluate(rule, Some(0), row);
      && r.Some? && z.Some?
      && (!MentionsUser(rule) ==> r == z)
      && (NotFree(rule) ==> (r.value ==> z.value))
  {
    match rule
    case Comparison(left, op, right) =>
    case And(a, b) =>
      AbsentUser(a, row);
      AbsentUser(b, row);
      hide Evaluate;
      EvaluatePair(a, b, None, row);
      EvaluatePair(a, b, Some(0), row);
    case Or(a, b) =>
      AbsentUser(a, row);
      AbsentUser(b, row);
      hide Evaluate;
      EvaluatePair(a, b, None, row);
      EvaluatePair(a, b, Some(0), row);
    case Not(inner) => AbsentUser(inner, row);
  }

  /** For an absent user the clause can select a row that the rule denies. */
  lemma {:induction false} AbsentUserSelects()
    ensures var rule, row := Comparison(Column(Resource, "owner"), NotEqual, AuthUserId), map["owner" := 7];
      && Translate(rule, None).Some? && Parse(Translate(rule, None).value.tokens).Some?
      && var clause := Translate(rule, None).value;
      && Evaluate(rule, None, row) == Some(false)
      && Select(Parse(clause.tokens).value.0, clause.params, row) == True
  {
    var rule, row := Comparison(Column(Resource, "owner"), NotEqual, AuthUserId), map["owner" := 7];
    hide Parse, Select;
    ClauseSelects(rule, None, row);
  }

  // ---------------------------------------------------------------------
  // Combining the stored rules
  // ---------------------------------------------------------------------

  datatype Stored = NoRule | Unreadable | Readable(rule: Rule)
  datatype RuleRow = RuleRow(operation: Option<string>, stored: Stored)
  datatype Combined = BadRule | Rules(rule: Option<Rule>)

  ghost predicate Relevant(row: RuleRow, operation: string) { row.operation == Some(operation) && !row.stored.NoRule? }

  /** All rules stored for the operation, as one: the combination accepts exactly
      when every one of them does, and one that cannot be read is an error. */
  method Combine(rows: seq<RuleRow>, operation: string) returns (combined: Combined)
    ensures combined.BadRule? <==>
      exists k | 0 <= k < |rows| :: Relevant(rows[k], operation) && rows[k].stored.Unreadable?
    ensures combined.Rules? ==>
      && (combined.rule.None? <==> forall k | 0 <= k < |rows| :: !Relevant(rows[k], operation))
      && (combined.rule.Some? ==> forall uid, row ::
            Evaluate(combined.rule.value, uid, row) == Some(true) <==>
            forall k | 0 <= k < |rows| && Relevant(rows[k], operation) ::
              rows[k].stored.Readable? && Evaluate(rows[k].stored.rule, uid, row) == Some(true))
  {
    combined := Rules(None);
    for n := 0 to |rows|
      invariant combined.Rules?
      invariant forall k | 0 <= k < n && Relevant(rows[k], operation) :: rows[k].stored.Readable?
      invariant combined.rule.None? <==> forall k | 0 <= k < n :: !Relevant(rows[k], operation)
      invariant combined.rule.Some? ==> forall uid, row ::
        Evaluate(combined.rule.value, uid, row) == Some(true) <==>
        forall k | 0 <= k < n && Relevant(rows[k], operation) ::
          rows[k].stored.Readable? && Evaluate(rows[k].stored.rule, uid, row) == Some(true)
    {
      if rows[n].operation != Some(operation) { continue; }
      match rows[n].stored
      case NoRule =>
      case Unreadable => return BadRule;
      case Readable(rule) =>
        combined := Rules(Some(if combined.rule.None? then rule else And(combined.rule.value, rule)));
    }
  }
}
