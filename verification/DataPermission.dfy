/**
  The data-permission compiler: the rules of a user's roles become one SQL condition, evaluated
  here in SQL's three-valued logic.
*/
module DataPermission {
  import opened Options

  // ---- three-valued logic ----

  datatype Truth = No | Unknown | Yes

  function Both(a: Truth, b: Truth): Truth {
    if a.No? || b.No? then No else if a.Unknown? || b.Unknown? then Unknown else Yes
  }

  function Either(a: Truth, b: Truth): Truth {
    if a.Yes? || b.Yes? then Yes else if a.Unknown? || b.Unknown? then Unknown else No
  }

  function Truly(b: bool): Truth {
    if b then Yes else No
  }

  // ---- conditions ----

  /** Values after casting, ordered; an absent cell is NULL. */
  type Value = int

  datatype Cell = Cell(model: string, column: string)

  type Row = map<Cell, Value>

  datatype Comparison = Eq | Ne | Gt | Ge | Lt | Le | In | NotIn

  datatype Expr =
    | Always
    | Compare(cell: Cell, op: Comparison, values: seq<Value>)
    | All(parts: seq<Expr>)
    | Any(parts: seq<Expr>)

  predicate Compares(op: Comparison, v: Value, values: seq<Value>) {
    match op
    case In => v in values
    case NotIn => v !in values
    case _ =>
      |values| == 1 &&
      (var w := values[0];
       match op
       case Eq => v == w
       case Ne => v != w
       case Gt => v > w
       case Ge => v >= w
       case Lt => v < w
       case _ => v <= w)
  }

  function Eval(e: Expr, row: Row): Truth
    decreases e, 0
  {
    match e
    case Always => Yes
    case Compare(cell, op, values) => if cell in row then Truly(Compares(op, row[cell], values)) else Unknown
    case All(parts) => EvalAll(parts, row)
    case Any(parts) => EvalAny(parts, row)
  }

  function EvalAll(parts: seq<Expr>, row: Row): Truth
    decreases parts
  {
    if parts == [] then Yes
    else
      assert parts[|parts| - 1] in parts;
      Both(EvalAll(parts[..|parts| - 1], row), Eval(parts[|parts| - 1], row))
  }

  function EvalAny(parts: seq<Expr>, row: Row): Truth
    decreases parts
  {
    if parts == [] then No
    else
      assert parts[|parts| - 1] in parts;
      Either(EvalAny(parts[..|parts| - 1], row), Eval(parts[|parts| - 1], row))
  }

  // ---- rules ----

  datatype Rule = Rule(id: int, model: string, column: string, operator: int, expression: int, value: string)
  datatype Scope = Scope(enabled: bool, rules: seq<Rule>)
  datatype Role = Role(filters: bool, scopes: seq<Scope>)
  datatype User = User(superuser: bool, roles: seq<Role>)

  const EXCLUDED := {"id", "sort", "del_flag", "created_time", "updated_time"}

  /** The models rules may speak of, with their columns. */
  type Models = map<string, set<string>>

  /** Conversion of a rule's text to the type of its column. */
  type Cast = (Cell, string) -> Value

  function Strip(s: string): string {
    if s != "" && s[0] == ' ' then Strip(s[1..])
    else if s != "" && s[|s| - 1] == ' ' then Strip(s[..|s| - 1])
    else s
  }

  function Split(s: string): (parts: seq<string>)
    ensures parts != []
  {
    if s == "" then [""]
    else
      var rest := Split(s[1..]);
      if s[0] == ',' then [""] + rest else [[s[0]] + rest[0]] + rest[1..]
  }

  function CastEach(cell: Cell, parts: seq<string>, cast: Cast): seq<Value> {
    if parts == [] then [] else [cast(cell, Strip(parts[0]))] + CastEach(cell, parts[1..], cast)
  }

  function Condition(rule: Rule, cast: Cast): Option<Expr> {
    var cell := Cell(rule.model, rule.column);
    var one := [cast(cell, rule.value)];
    match rule.expression
    case 0 => Some(Compare(cell, Eq, one))
    case 1 => Some(Compare(cell, Ne, one))
    case 2 => Some(Compare(cell, Gt, one))
    case 3 => Some(Compare(cell, Ge, one))
    case 4 => Some(Compare(cell, Lt, one))
    case 5 => Some(Compare(cell, Le, one))
    case 6 => Some(Compare(cell, In, CastEach(cell, Split(rule.value), cast)))
    case 7 => Some(Compare(cell, NotIn, CastEach(cell, Split(rule.value), cast)))
    case _ => None
  }

  predicate Applicable(rule: Rule, models: Models) {
    rule.model in models && rule.column in models[rule.model] && rule.column !in EXCLUDED && 0 <= rule.expression <= 7
  }

  // ---- the compiler ----

  ghost predicate Holds(rule: Rule, user: User) {
    exists i, k :: 0 <= i < |user.roles| && 0 <= k < |user.roles[i].scopes| && HoldsAt(rule, user.roles[i].scopes[k])
  }

  predicate HoldsAt(rule: Rule, scope: Scope) {
    scope.enabled && rule in scope.rules
  }

  /** All rules of the enabled scopes of all roles. */
  method CollectRules(user: User) returns (rules: set<Rule>)
    ensures forall rule :: rule in rules <==> Holds(rule, user)
  {
    rules := {};
    for i := 0 to |user.roles|
      invariant forall rule :: rule in rules <==>
                  exists a, k :: 0 <= a < i && 0 <= k < |user.roles[a].scopes| && HoldsAt(rule, user.roles[a].scopes[k])
    {
      rules := CollectRole(user, i, rules);
    }
  }

  method CollectRole(user: User, i: nat, before: set<Rule>) returns (rules: set<Rule>)
    requires i < |user.roles|
    ensures forall rule :: rule in rules <==>
              rule in before || exists k :: 0 <= k < |user.roles[i].scopes| && HoldsAt(rule, user.roles[i].scopes[k])
  {
    rules := before;
    var scopes := user.roles[i].scopes;
    for k := 0 to |scopes|
      invariant forall rule :: rule in rules <==> rule in before || exists b :: 0 <= b < k && HoldsAt(rule, scopes[b])
    {
      if scopes[k].enabled {
        rules := rules + set rule | rule in scopes[k].rules;
      }
    }
  }

  /** The conditions of the AND rules and of the OR rules, in whatever order the set gives its members. */
  method CompileRules(rules: set<Rule>, models: Models, cast: Cast) returns (ands: seq<Expr>, ors: seq<Expr>)
    ensures forall e :: e in ands <==> From(e, rules, models, cast, 0)
    ensures forall e :: e in ors <==> From(e, rules, models, cast, 1)
  {
    ands, ors := [], [];
    var rest := rules;
    while rest != {}
      invariant rest <= rules
      invariant forall e :: e in ands <==> From(e, rules - rest, models, cast, 0)
      invariant forall e :: e in ors <==> From(e, rules - rest, models, cast, 1)
      decreases |rest|
    {
      var rule :| rule in rest;
      ghost var done := rules - rest;
      rest := rest - {rule};
      assert rules - rest == done + {rule};
      FromMore(done, rule, models, cast, 0);
      FromMore(done, rule, models, cast, 1);
      if rule.model !in models || rule.column !in models[rule.model] || rule.column in EXCLUDED {
        continue;
      }
      var condition := Condition(rule, cast);
      if condition.Some? {
        if rule.operator == 0 {
          ands := ands + [condition.value];
        } else if rule.operator == 1 {
          ors := ors + [condition.value];
        }
      }
    }
    assert rules - rest == rules;
  }

  /** `e` is the condition of an applicable rule of the set with this operator. */
  ghost predicate From(e: Expr, rules: set<Rule>, models: Models, cast: Cast, operator: int) {
    exists rule :: rule in rules && FromRule(e, rule, models, cast, operator)
  }

  predicate FromRule(e: Expr, rule: Rule, models: Models, cast: Cast, operator: int) {
    Applicable(rule, models) && rule.operator == operator && Condition(rule, cast) == Some(e)
  }

  lemma FromMore(done: set<Rule>, rule: Rule, models: Models, cast: Cast, operator: int)
    ensures forall e :: From(e, done + {rule}, models, cast, operator) <==>
              From(e, done, models, cast, operator) || FromRule(e, rule, models, cast, operator)
  {
    forall e | From(e, done, models, cast, operator)
      ensures From(e, done + {rule}, models, cast, operator)
    {
      var r :| r in done && FromRule(e, r, models, cast, operator);
      assert r in done + {rule};
    }
  }

  function Combined(ands: seq<Expr>, ors: seq<Expr>): Expr {
    var parts := (if ands != [] then [All(ands)] else []) + (if ors != [] then [Any(ors)] else []);
    if parts != [] then Any(parts) else Always
  }

  // ---- the reference meaning ----

  ghost predicate Active(rule: Rule, user: User, models: Models, operator: int) {
    Holds(rule, user) && Applicable(rule, models) && rule.operator == operator
  }

  /** The stretch of text between two commas, or a comma and an end. */
  ghost predicate PartAt(text: string, i: nat, j: nat) {
    && i <= j <= |text| && (forall k :: i <= k < j ==> text[k] != ',')
    && (i == 0 || text[i - 1] == ',') && (j == |text| || text[j] == ',')
  }

  /** What is left of a text without the spaces around it. */
  ghost predicate Stripped(text: string, i: nat, j: nat) {
    && i <= j <= |text| && (forall k :: 0 <= k < i || j <= k < |text| ==> text[k] == ' ')
    && (i < j ==> text[i] != ' ' && text[j - 1] != ' ')
  }

  /** Some part of the rule's text, stripped, casts to the value. */
  ghost predicate Listed(rule: Rule, cast: Cast, v: Value) {
    exists i: nat, j: nat ::
      PartAt(rule.value, i, j) && CastsTo(rule.value[i..j], Cell(rule.model, rule.column), cast, v)
  }

  ghost predicate CastsTo(part: string, cell: Cell, cast: Cast, v: Value) {
    exists i: nat, j: nat :: Stripped(part, i, j) && cast(cell, part[i..j]) == v
  }

  /** A value satisfies a rule, by its code: 0 to 5 compare with its text, 6 and 7 look it up in the comma list. */
  ghost predicate Satisfies(v: Value, rule: Rule, cast: Cast) {
    var c := cast(Cell(rule.model, rule.column), rule.value);
    && (rule.expression == 0 ==> v == c)
    && (rule.expression == 1 ==> v != c)
    && (rule.expression == 2 ==> v > c)
    && (rule.expression == 3 ==> v >= c)
    && (rule.expression == 4 ==> v < c)
    && (rule.expression == 5 ==> v <= c)
    && (rule.expression == 6 ==> Listed(rule, cast, v))
    && (rule.expression == 7 ==> !Listed(rule, cast, v))
  }

  /** What SQL makes of a rule for a row, NULL satisfying and failing nothing. */
  ghost function Verdict(rule: Rule, cast: Cast, row: Row): Truth {
    var cell := Cell(rule.model, rule.column);
    if cell !in row then Unknown else if Satisfies(row[cell], rule, cast) then Yes else No
  }

  /** The conjunction of the applicable AND rules, without any order. */
  ghost function Conjunction(user: User, models: Models, cast: Cast, row: Row): Truth {
    if exists r :: Active(r, user, models, 0) && Verdict(r, cast, row).No? then No
    else if exists r :: Active(r, user, models, 0) && Verdict(r, cast, row).Unknown? then Unknown
    else Yes
  }

  /** The disjunction of the applicable OR rules. */
  ghost function Disjunction(user: User, models: Models, cast: Cast, row: Row): Truth {
    if exists r :: Active(r, user, models, 1) && Verdict(r, cast, row).Yes? then Yes
    else if exists r :: Active(r, user, models, 1) && Verdict(r, cast, row).Unknown? then Unknown
    else No
  }

  ghost predicate Unfiltered(user: User) {
    user.superuser || exists i :: 0 <= i < |user.roles| && !user.roles[i].filters
  }

  ghost function Meaning(user: User, models: Models, cast: Cast, row: Row): Truth {
    var some := exists r :: Active(r, user, models, 0);
    var more := exists r :: Active(r, user, models, 1);
    if Unfiltered(user) || (!some && !more) then Yes
    else if !more then Conjunction(user, models, cast, row)
    else if !some then Disjunction(user, models, cast, row)
    else Either(Conjunction(user, models, cast, row), Disjunction(user, models, cast, row))
  }

  // ---- the compiler meets the reference ----

  /** Splitting gives the parts between commas. */
  lemma {:induction false} SplitExact(s: string, part: string)
    ensures part in Split(s) <==> exists i: nat, j: nat :: PartAt(s, i, j) && s[i..j] == part
  {
    forall n: nat | n < |Split(s)| && Split(s)[n] == part
      ensures exists i: nat, j: nat :: PartAt(s, i, j) && s[i..j] == part
    {
      var i, j := SplitFinds(s, n);
    }
    forall i: nat, j: nat | PartAt(s, i, j) && s[i..j] == part
      ensures part in Split(s)
    {
      SplitKeeps(s, i, j);
    }
  }

  /** The parts of `c` and `s`, from those of `s`. */
  lemma PartBehind(c: char, s: string, i: nat, j: nat)
    requires PartAt(s, i, j)
    ensures i > 0 || c == ',' ==> PartAt([c] + s, i + 1, j + 1) && ([c] + s)[i + 1..j + 1] == s[i..j]
    ensures i == 0 && c != ',' ==> PartAt([c] + s, 0, j + 1) && ([c] + s)[0..j + 1] == [c] + s[i..j]
  {
    var all := [c] + s;
    assert forall k :: 0 < k < |all| ==> all[k] == s[k - 1];
    assert all[i + 1..j + 1] == s[i..j];
    assert all[0..j + 1] == [c] + s[0..j];
  }

  lemma {:induction false} SplitFinds(s: string, n: nat) returns (i: nat, j: nat)
    requires n < |Split(s)|
    ensures PartAt(s, i, j) && s[i..j] == Split(s)[n] && (i == 0 <==> n == 0)
  {
    if s == "" {
      i, j := 0, 0;
    } else if s[0] == ',' && n == 0 {
      i, j := 0, 0;
    } else {
      assert [s[0]] + s[1..] == s;
      i, j := SplitFinds(s[1..], if s[0] == ',' then n - 1 else n);
      PartBehind(s[0], s[1..], i, j);
      i, j := if i > 0 || s[0] == ',' then i + 1 else 0, j + 1;
    }
  }

  lemma {:induction false} SplitKeeps(s: string, i: nat, j: nat)
    requires PartAt(s, i, j)
    ensures s[i..j] in Split(s) && (i == 0 ==> s[i..j] == Split(s)[0]) && (i > 0 ==> s[i..j] in Split(s)[1..])
  {
    if s != "" {
      var rest := Split(s[1..]);
      if i > 0 {
        PartAhead(s, i, j);
        SplitKeeps(s[1..], i - 1, j - 1);
        TailSlice(s, i - 1, j - 1);
        if s[0] == ',' {
          assert Split(s)[1..] == rest;
        } else {
          assert i - 1 > 0;
          assert Split(s)[1..] == rest[1..];
        }
      } else if j > 0 {
        assert s[0] != ',';
        PartAhead(s, i, j);
        SplitKeeps(s[1..], 0, j - 1);
        ConsSlice(s, j);
      }
    }
  }

  lemma PartAhead(s: string, i: nat, j: nat)
    requires PartAt(s, i, j) && j > 0 && (i == 0 ==> s[0] != ',')
    ensures PartAt(s[1..], if i > 0 then i - 1 else 0, j - 1)
  {
    var rest := s[1..];
    assert |rest| == |s| - 1 && forall k :: 0 <= k < |rest| ==> rest[k] == s[k + 1];
  }

  lemma TailSlice(s: string, i: nat, j: nat)
    requires i <= j < |s|
    ensures s[1..][i..j] == s[i + 1..j + 1]
  {
  }

  lemma ConsSlice(s: string, j: nat)
    requires 0 < j <= |s|
    ensures s[0..j] == [s[0]] + s[1..][0..j - 1]
  {
  }

  lemma InitSlice(s: string, i: nat, j: nat)
    requires i <= j < |s|
    ensures s[..|s| - 1][i..j] == s[i..j]
  {
  }

  lemma {:induction false} StripFinds(s: string) returns (i: nat, j: nat)
    ensures Stripped(s, i, j) && s[i..j] == Strip(s)
    decreases |s|
  {
    if s != "" && s[0] == ' ' {
      i, j := StripFinds(s[1..]);
      TailSlice(s, i, j);
      i, j := i + 1, j + 1;
      assert forall k :: 0 < k < |s| ==> s[k] == s[1..][k - 1];
    } else if s != "" && s[|s| - 1] == ' ' {
      i, j := StripFinds(s[..|s| - 1]);
      InitSlice(s, i, j);
    } else {
      i, j := 0, |s|;
      assert s[0..|s|] == s;
    }
  }

  lemma StrippedOnce(s: string, i: nat, j: nat, i': nat, j': nat)
    requires Stripped(s, i, j) && Stripped(s, i', j')
    ensures s[i..j] == s[i'..j']
  {
    if i < j {
      assert s[i] != ' ' && s[j - 1] != ' ';
      assert i' <= i && j <= j';
      assert i' < j' && s[i'] != ' ' && s[j' - 1] != ' ';
    } else {
      assert i' == j';
    }
  }

  lemma CastsToStripped(part: string, cell: Cell, cast: Cast, v: Value)
    ensures CastsTo(part, cell, cast, v) <==> cast(cell, Strip(part)) == v
  {
    var i, j := StripFinds(part);
    forall k: nat, l: nat | Stripped(part, k, l)
      ensures part[k..l] == Strip(part)
    {
      StrippedOnce(part, i, j, k, l);
    }
  }

  lemma {:induction false} CastEachHolds(cell: Cell, parts: seq<string>, cast: Cast, v: Value)
    ensures v in CastEach(cell, parts, cast) <==> exists part :: part in parts && CastsTo(part, cell, cast, v)
  {
    if parts != [] {
      CastEachHolds(cell, parts[1..], cast, v);
      CastsToStripped(parts[0], cell, cast, v);
      assert parts == [parts[0]] + parts[1..];
    }
  }

  lemma ListedExactly(rule: Rule, cast: Cast, v: Value)
    ensures v in CastEach(Cell(rule.model, rule.column), Split(rule.value), cast) <==> Listed(rule, cast, v)
  {
    var cell := Cell(rule.model, rule.column);
    CastEachHolds(cell, Split(rule.value), cast, v);
    forall part
      ensures part in Split(rule.value) <==>
              exists i: nat, j: nat :: PartAt(rule.value, i, j) && rule.value[i..j] == part
    {
      SplitExact(rule.value, part);
    }
  }

  /** The condition compiled for a rule evaluates to the rule's verdict on every row. */
  lemma ConditionMeans(rule: Rule, cast: Cast, row: Row)
    ensures Condition(rule, cast).Some? <==> 0 <= rule.expression <= 7
    ensures Condition(rule, cast).Some? ==> Eval(Condition(rule, cast).value, row) == Verdict(rule, cast, row)
  {
    var cell := Cell(rule.model, rule.column);
    if cell in row {
      ListedExactly(rule, cast, row[cell]);
    }
  }

  lemma {:induction false} EvalAllExact(parts: seq<Expr>, row: Row)
    ensures EvalAll(parts, row) == if exists e :: e in parts && Eval(e, row).No? then No
                                   else if exists e :: e in parts && Eval(e, row).Unknown? then Unknown
                                   else Yes
  {
    if parts != [] {
      var init, last := parts[..|parts| - 1], parts[|parts| - 1];
      EvalAllExact(init, row);
      assert parts == init + [last];
      assert last in parts && EvalAll(parts, row) == Both(EvalAll(init, row), Eval(last, row));
    }
  }

  lemma {:induction false} EvalAnyExact(parts: seq<Expr>, row: Row)
    ensures EvalAny(parts, row) == if exists e :: e in parts && Eval(e, row).Yes? then Yes
                                   else if exists e :: e in parts && Eval(e, row).Unknown? then Unknown
                                   else No
  {
    if parts != [] {
      var init, last := parts[..|parts| - 1], parts[|parts| - 1];
      EvalAnyExact(init, row);
      assert parts == init + [last];
      assert last in parts && EvalAny(parts, row) == Either(EvalAny(init, row), Eval(last, row));
    }
  }

  /** The list holds exactly the conditions of the user's applicable rules with this operator. */
  ghost predicate Lists(parts: seq<Expr>, user: User, models: Models, cast: Cast, operator: int) {
    && (forall e :: e in parts ==> exists r :: Active(r, user, models, operator) && Condition(r, cast) == Some(e))
    && (forall r :: Active(r, user, models, operator) ==> Condition(r, cast).Some? && Condition(r, cast).value in parts)
  }

  lemma FromLists(parts: seq<Expr>, rules: set<Rule>, user: User, models: Models, cast: Cast, operator: int)
    requires forall rule :: rule in rules <==> Holds(rule, user)
    requires forall e :: e in parts <==> From(e, rules, models, cast, operator)
    ensures Lists(parts, user, models, cast, operator)
  {
    forall e | e in parts
      ensures exists r :: Active(r, user, models, operator) && Condition(r, cast) == Some(e)
    {
      var r :| r in rules && FromRule(e, r, models, cast, operator);
      assert Active(r, user, models, operator);
    }
    forall r | Active(r, user, models, operator)
      ensures Condition(r, cast).Some? && Condition(r, cast).value in parts
    {
      assert r in rules && FromRule(Condition(r, cast).value, r, models, cast, operator);
    }
  }

  lemma SomeVerdict(parts: seq<Expr>, user: User, models: Models, cast: Cast, operator: int, row: Row, t: Truth)
    requires Lists(parts, user, models, cast, operator)
    ensures (exists e :: e in parts && Eval(e, row) == t) <==>
            exists r :: Active(r, user, models, operator) && Verdict(r, cast, row) == t
  {
    if e :| e in parts && Eval(e, row) == t {
      var r :| Active(r, user, models, operator) && Condition(r, cast) == Some(e);
      ConditionMeans(r, cast, row);
      assert Verdict(r, cast, row) == t;
    }
    if r :| Active(r, user, models, operator) && Verdict(r, cast, row) == t {
      ConditionMeans(r, cast, row);
      assert Condition(r, cast).value in parts;
    }
  }

  lemma NothingListed(parts: seq<Expr>, user: User, models: Models, cast: Cast, operator: int)
    requires Lists(parts, user, models, cast, operator)
    ensures parts == [] <==> !exists r :: Active(r, user, models, operator)
  {
    if parts != [] {
      assert parts[0] in parts;
    }
  }

  lemma CombinedEval(ands: seq<Expr>, ors: seq<Expr>, row: Row)
    ensures Eval(Combined(ands, ors), row) ==
            if ands == [] && ors == [] then Yes
            else if ors == [] then EvalAll(ands, row)
            else if ands == [] then EvalAny(ors, row)
            else Either(EvalAll(ands, row), EvalAny(ors, row))
  {
    if ands != [] && ors != [] {
      EvalTwo(All(ands), Any(ors), row);
      assert [All(ands)] + [Any(ors)] == [All(ands), Any(ors)];
    } else if ands != [] {
      EvalOne(All(ands), row);
      assert [All(ands)] + [] == [All(ands)];
    } else if ors != [] {
      EvalOne(Any(ors), row);
      assert [] + [Any(ors)] == [Any(ors)];
    }
  }

  lemma EvalOne(e: Expr, row: Row)
    ensures EvalAny([e], row) == Eval(e, row)
  {
    assert [e][..0] == [];
    assert EvalAny([e][..0], row) == No;
  }

  lemma EvalTwo(a: Expr, b: Expr, row: Row)
    ensures EvalAny([a, b], row) == Either(Eval(a, row), Eval(b, row))
  {
    EvalOne(a, row);
    assert [a, b][..1] == [a];
  }

  lemma CombinedMeans(ands: seq<Expr>, ors: seq<Expr>, user: User, models: Models, cast: Cast, row: Row)
    requires !Unfiltered(user)
    requires Lists(ands, user, models, cast, 0) && Lists(ors, user, models, cast, 1)
    ensures Eval(Combined(ands, ors), row) == Meaning(user, models, cast, row)
  {
    CombinedEval(ands, ors, row);
    MeaningOf(ands, ors, user, models, cast, row);
    AndsMean(ands, user, models, cast, row);
    OrsMean(ors, user, models, cast, row);
  }

  lemma MeaningOf(ands: seq<Expr>, ors: seq<Expr>, user: User, models: Models, cast: Cast, row: Row)
    requires !Unfiltered(user)
    requires Lists(ands, user, models, cast, 0) && Lists(ors, user, models, cast, 1)
    ensures Meaning(user, models, cast, row) ==
            if ands == [] && ors == [] then Yes
            else if ors == [] then Conjunction(user, models, cast, row)
            else if ands == [] then Disjunction(user, models, cast, row)
            else Either(Conjunction(user, models, cast, row), Disjunction(user, models, cast, row))
  {
    NothingListed(ands, user, models, cast, 0);
    NothingListed(ors, user, models, cast, 1);
  }

  lemma AndsMean(ands: seq<Expr>, user: User, models: Models, cast: Cast, row: Row)
    requires Lists(ands, user, models, cast, 0)
    ensures EvalAll(ands, row) == Conjunction(user, models, cast, row)
  {
    EvalAllExact(ands, row);
    SomeVerdict(ands, user, models, cast, 0, row, No);
    SomeVerdict(ands, user, models, cast, 0, row, Unknown);
  }

  lemma OrsMean(ors: seq<Expr>, user: User, models: Models, cast: Cast, row: Row)
    requires Lists(ors, user, models, cast, 1)
    ensures EvalAny(ors, row) == Disjunction(user, models, cast, row)
  {
    EvalAnyExact(ors, row);
    SomeVerdict(ors, user, models, cast, 1, row, Yes);
    SomeVerdict(ors, user, models, cast, 1, row, Unknown);
  }

  /**
    For every user, rule set, target models and row, the compiled condition evaluates to the
    reference meaning.  The meaning knows no order, so neither does the condition.
  */
  method FilterDataPermission(user: User, models: Models, cast: Cast) returns (e: Expr)
    ensures forall row :: Eval(e, row) == Meaning(user, models, cast, row)
  {
    if user.superuser {
      return Always;
    }
    for i := 0 to |user.roles|
      invariant forall k :: 0 <= k < i ==> user.roles[k].filters
    {
      if !user.roles[i].filters {
        return Always;
      }
    }
    var rules := CollectRules(user);
    if rules == {} {
      assert forall rule :: rule in rules <==> Holds(rule, user);
      return Always;
    }
    var ands, ors := CompileRules(rules, models, cast);
    FromLists(ands, rules, user, models, cast, 0);
    FromLists(ors, rules, user, models, cast, 1);
    e := Combined(ands, ors);
    forall row
      ensures Eval(e, row) == Meaning(user, models, cast, row)
    {
      CombinedMeans(ands, ors, user, models, cast, row);
    }
  }

  // ---- which rows a WHERE clause keeps ----

  /** A filtered row is kept exactly when every AND rule holds of it, there being some, or some OR rule does. */
  lemma KeptRows(user: User, models: Models, cast: Cast, row: Row)
    requires !Unfiltered(user)
    requires exists r, operator :: 0 <= operator <= 1 && Active(r, user, models, operator)
    ensures Meaning(user, models, cast, row).Yes? <==>
            || ((exists r :: Active(r, user, models, 0))
                && forall r :: Active(r, user, models, 0) ==> Verdict(r, cast, row).Yes?)
            || (exists r :: Active(r, user, models, 1) && Verdict(r, cast, row).Yes?)
  {
    var r, operator :| 0 <= operator <= 1 && Active(r, user, models, operator);
    if operator == 0 {
      assert Active(r, user, models, 0);
    } else {
      assert Active(r, user, models, 1);
    }
  }

  /** A row whose ruled columns are all NULL is never kept, not even by `!=` and `not in` rules. */
  lemma NullsAreHidden(user: User, models: Models, cast: Cast, row: Row)
    requires !Unfiltered(user)
    requires exists r, operator :: 0 <= operator <= 1 && Active(r, user, models, operator)
    requires forall r, operator :: Active(r, user, models, operator) ==> Cell(r.model, r.column) !in row
    ensures Meaning(user, models, cast, row) == Unknown
  {
    var r, operator :| 0 <= operator <= 1 && Active(r, user, models, operator);
    forall r, operator | Active(r, user, models, operator)
      ensures Verdict(r, cast, row) == Unknown
    {
      assert Cell(r.model, r.column) !in row;
    }
    if operator == 0 {
      assert Active(r, user, models, 0) && Verdict(r, cast, row) == Unknown;
    } else {
      assert Active(r, user, models, 1) && Verdict(r, cast, row) == Unknown;
    }
  }

  // ---- splitting a list of values ----

  function Joined(parts: seq<string>): string {
    if parts == [] then "" else if |parts| == 1 then parts[0] else parts[0] + "," + Joined(parts[1..])
  }

  /** Splitting at commas loses nothing, and leaves no comma behind. */
  lemma {:induction false} SplitJoins(s: string)
    ensures Joined(Split(s)) == s
    ensures forall part :: part in Split(s) ==> ',' !in part
  {
    if s != "" {
      SplitJoins(s[1..]);
      var rest := Split(s[1..]);
      assert s == [s[0]] + s[1..];
      if s[0] == ',' {
        assert ([""] + rest)[1..] == rest;
      } else {
        assert ([[s[0]] + rest[0]] + rest[1..])[1..] == rest[1..];
        assert rest[0] in rest;
      }
    }
  }
}
