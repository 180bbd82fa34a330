/** The egg-variable rule language: a pipe-separated list of Laravel-style
    rules, each `name` or `name:arguments`.

    Number parsing, user-written regular expressions and the URL, e-mail, IP and UUID
    parsers are engines of the host language; they are parameters here. */
module Rules {
  import opened Common
  import opened Text

  /** A float: a real, an infinity, or NaN, which no comparison accepts. */
  datatype Num = Fin(r: real) | PosInf | NegInf | NaN

  predicate Lt(a: Num, b: Num) {
    match (a, b)
    case (NaN, _) => false
    case (_, NaN) => false
    case (Fin(x), Fin(y)) => x < y
    case (NegInf, _) => b != NegInf
    case (_, PosInf) => a != PosInf
    case _ => false
  }

  predicate Le(a: Num, b: Num) {
    Lt(a, b) || (a == b && a != NaN)
  }

  datatype Engine = Engine(
    toFloat: string -> Option<Num>,
    toInt: string -> Option<int>,
    /** `re.search`; None when the pattern itself is invalid. */
    search: (string, string) -> Option<bool>,
    isDigit: char -> bool,
    isUrl: string -> bool,
    isEmail: string -> bool,
    isIp: string -> bool,
    isUuid: string -> bool)

  /** What the validator may be handed. A number carries its `str()`. */
  datatype Value =
    | Missing
    | Text(s: string)
    | Number(n: Num, shown: string, integral: bool)
    | Boolean(b: bool)

  /** `Crashed` is an exception other than the validator's own, such as a bound that is no number. */
  datatype Verdict = Passed | Violated | Crashed

  predicate IsEmpty(v: Value) {
    v == Missing || v == Text("")
  }

  function Shown(v: Value): string {
    match v
    case Missing => "None"
    case Text(s) => s
    case Number(_, shown, _) => shown
    case Boolean(b) => if b then "True" else "False"
  }

  function ToNumber(e: Engine, v: Value): Option<Num> {
    match v
    case Missing => None
    case Text(s) => e.toFloat(s)
    case Number(n, _, _) => Some(n)
    case Boolean(b) => Some(Fin(if b then 1.0 else 0.0))
  }

  /** `len(value)` of a string, 0 for everything else. */
  function Length(v: Value): nat {
    if v.Text? then |v.s| else 0
  }

  function Size(v: Value): Num {
    Fin(Length(v) as real)
  }

  function Check(b: bool): Verdict {
    if b then Passed else Violated
  }

  /** A length bound is shown as `int(bound)` in the message, which raises on an infinity. */
  function CheckBound(ok: bool, numeric: bool, bound: Num): Verdict {
    if ok then Passed else if numeric || bound.Fin? then Violated else Crashed
  }

  function SplitArgs(args: string): seq<string> {
    if args == "" then [] else Split(args, ',')
  }

  function RuleName(rule: string): string {
    Lower(Strip(Before(rule, ':')))
  }

  function RuleArgs(rule: string): seq<string> {
    SplitArgs(After(rule, ':'))
  }

  /** What `$` sees: the text without one trailing line feed. */
  function ToDollar(s: string): string {
    if s != "" && s[|s| - 1] == '\n' then s[..|s| - 1] else s
  }

  predicate AllChars(s: string, p: char -> bool) {
    s != "" && forall i :: 0 <= i < |s| ==> p(s[i])
  }

  predicate IsAlphaNum(c: char) {
    'A' <= c <= 'Z' || 'a' <= c <= 'z' || '0' <= c <= '9'
  }

  predicate IsAlphaDash(c: char) {
    IsAlphaNum(c) || c == '_' || c == '-'
  }

  predicate IsDigits(e: Engine, s: string) {
    AllChars(ToDollar(s), e.isDigit)
  }

  predicate IsInteger(e: Engine, s: string) {
    IsDigits(e, if s != "" && s[0] == '-' then s[1..] else s)
  }

  predicate IsBooleanWord(v: Value) {
    match v
    case Text(s) => s in {"1", "true", "on", "yes", "0", "false", "off", "no", ""}
    case Number(n, _, _) => n == Fin(1.0) || n == Fin(0.0)
    case Boolean(_) => true
    case Missing => false
  }

  /** `pattern[1:-1]` for a delimited pattern, PCRE flags turned into inline flags. */
  function StripDelimiters(p: string): string {
    if |p| >= 2 && p[0] == p[|p| - 1] && p[0] in "/#~" then p[1..|p| - 1]
    else if |p| >= 2 && p[0] == '/' then
      var last := LastSlash(p);
      if last > 0 then
        var inline := KnownFlags(p[last + 1..]);
        if inline != "" then "(?" + inline + ")" + p[1..last] else p[1..last]
      else p
    else p
  }

  function LastSlash(p: string): (i: nat)
    requires '/' in p
    ensures i < |p| && p[i] == '/'
  {
    if p[|p| - 1] == '/' then |p| - 1 else LastSlash(p[..|p| - 1])
  }

  function KnownFlags(flags: string): string {
    if flags == "" then ""
    else (if flags[0] in "imsxu" then [flags[0]] else "") + KnownFlags(flags[1..])
  }

  /** `rule[len("regex:"):]`: a slice of the raw rule, whatever its spelling. */
  function RawFrom(rule: string, n: nat): string {
    if n <= |rule| then rule[n..] else ""
  }

  predicate StartsWithAny(s: string, heads: seq<string>) {
    exists i :: 0 <= i < |heads| && heads[i] <= s
  }

  predicate EndsWithAny(s: string, tails: seq<string>) {
    exists i :: 0 <= i < |tails| && |tails[i]| <= |s| && s[|s| - |tails[i]|..] == tails[i]
  }

  datatype Kind =
    | RequiredRule | NullableRule | SometimesRule | StringRule | NumericRule | IntegerRule
    | BooleanRule | InRule | NotInRule | MaxRule | MinRule | BetweenRule
    | SizeRule | AlphaNumRule | AlphaDashRule | UrlRule | EmailRule | StartsWithRule
    | EndsWithRule | RegexRule | NotRegexRule | DigitsRule | DigitsBetweenRule | IpRule
    | UuidRule | UnknownRule

  function KindOf(name: string): Kind {
    match name
    case "required" => RequiredRule
    case "nullable" => NullableRule
    case "sometimes" => SometimesRule
    case "string" => StringRule
    case "numeric" => NumericRule
    case "integer" => IntegerRule
    case "boolean" => BooleanRule
    case "in" => InRule
    case "not_in" => NotInRule
    case "max" => MaxRule
    case "min" => MinRule
    case "between" => BetweenRule
    case "size" => SizeRule
    case "alpha_num" => AlphaNumRule
    case "alpha_dash" => AlphaDashRule
    case "url" => UrlRule
    case "email" => EmailRule
    case "starts_with" => StartsWithRule
    case "ends_with" => EndsWithRule
    case "regex" => RegexRule
    case "not_regex" => NotRegexRule
    case "digits" => DigitsRule
    case "digits_between" => DigitsBetweenRule
    case "ip" => IpRule
    case "uuid" => UuidRule
    case _ => UnknownRule
  }

  /** One rule against one non-empty value. */
  function ValidateFilled(e: Engine, v: Value, rule: string, numeric: bool): Verdict {
    ValidateAs(e, v, KindOf(RuleName(rule)), RuleArgs(rule), rule, numeric)
  }

  function ValidateAs(e: Engine, v: Value, kind: Kind, args: seq<string>, rule: string, numeric: bool): Verdict {
    match kind
    case StringRule => Check(v.Text?)
    case NumericRule => Check(ToNumber(e, v).Some?)
    case IntegerRule => Check(match v
      case Number(_, _, integral) => integral
      case Text(s) => IsInteger(e, s)
      case _ => false)
    case BooleanRule => Check(IsBooleanWord(v))
    case InRule => Check(Shown(v) in args)
    case NotInRule => Check(Shown(v) !in args)
    case MaxRule =>
      if args == [] then Passed
      else (match e.toFloat(args[0])
        case None => Crashed
        case Some(bound) => CheckBound(AtMost(e, v, numeric, bound), numeric, bound))
    case MinRule =>
      if args == [] then Passed
      else (match e.toFloat(args[0])
        case None => Crashed
        case Some(bound) => CheckBound(AtLeast(e, v, numeric, bound), numeric, bound))
    case BetweenRule =>
      if |args| < 2 then Passed
      else (match (e.toFloat(args[0]), e.toFloat(args[1]))
        case (Some(lo), Some(hi)) => Check(Within(e, v, numeric, lo, hi))
        case _ => Crashed)
    case SizeRule =>
      if args == [] then Passed
      else (match e.toFloat(args[0])
        case None => Crashed
        case Some(target) => ExactSize(e, v, numeric, target))
    case AlphaNumRule => Check(v.Text? && AllChars(ToDollar(v.s), IsAlphaNum))
    case AlphaDashRule => Check(v.Text? && AllChars(ToDollar(v.s), IsAlphaDash))
    case UrlRule => Check(v.Text? && e.isUrl(v.s))
    case EmailRule => Check(v.Text? && e.isEmail(v.s))
    case StartsWithRule => Check(v.Text? && StartsWithAny(v.s, args))
    case EndsWithRule => Check(v.Text? && EndsWithAny(v.s, args))
    case RegexRule => Check(e.search(StripDelimiters(RawFrom(rule, 6)), Shown(v)) == Some(true))
    case NotRegexRule => Check(e.search(StripDelimiters(RawFrom(rule, 10)), Shown(v)) == Some(false))
    case DigitsRule =>
      if args == [] then Passed
      else (match e.toInt(args[0])
        case None => Crashed
        case Some(n) => Check(v.Text? && IsDigits(e, v.s) && |v.s| == n))
    case DigitsBetweenRule =>
      if |args| < 2 then Passed
      else (match (e.toInt(args[0]), e.toInt(args[1]))
        case (Some(lo), Some(hi)) => Check(v.Text? && IsDigits(e, v.s) && lo <= |v.s| <= hi)
        case _ => Crashed)
    case IpRule => Check(e.isIp(Shown(v)))
    case UuidRule => Check(e.isUuid(Shown(v)))
    case _ => Passed
  }

  predicate AtMost(e: Engine, v: Value, numeric: bool, bound: Num) {
    if numeric then
      var n := ToNumber(e, v);
      !(n.Some? && Lt(bound, n.value))
    else !(v.Text? && Lt(bound, Size(v)))
  }

  predicate AtLeast(e: Engine, v: Value, numeric: bool, bound: Num) {
    if numeric then
      var n := ToNumber(e, v);
      !(n.Some? && Lt(n.value, bound))
    else !(v.Text? && Lt(Size(v), bound))
  }

  predicate Within(e: Engine, v: Value, numeric: bool, lo: Num, hi: Num) {
    if numeric then
      var n := ToNumber(e, v);
      n.Some? ==> Le(lo, n.value) && Le(n.value, hi)
    else Le(lo, Size(v)) && Le(Size(v), hi)
  }

  /** `int(target)` truncates toward zero and raises on an infinity or NaN. */
  function ExactSize(e: Engine, v: Value, numeric: bool, target: Num): Verdict {
    if numeric then
      var n := ToNumber(e, v);
      Check(n.Some? && n.value == target && target != NaN)
    else if target.Fin? then
      var whole := if target.r < 0.0 then -(-target.r).Floor else target.r.Floor;
      Check(Length(v) == whole)
    else Crashed
  }

  function ValidateOne(e: Engine, v: Value, rule: string, numeric: bool): Verdict {
    var kind := KindOf(RuleName(rule));
    if kind == RequiredRule then Check(!IsEmpty(v))
    else if kind == NullableRule || kind == SometimesRule then Passed
    else if IsEmpty(v) then Passed
    else ValidateFilled(e, v, rule, numeric)
  }

  function SplitRules(rules: string): seq<string> {
    Trim(Split(rules, '|'))
  }

  /** Each part stripped, the blank ones dropped. */
  function Trim(parts: seq<string>): seq<string> {
    if parts == [] then []
    else
      var head := Strip(parts[0]);
      (if head == "" then [] else [head]) + Trim(parts[1..])
  }

  predicate HasRule(parts: seq<string>, name: string) {
    exists i :: 0 <= i < |parts| && RuleName(parts[i]) == name
  }

  predicate NumericContext(parts: seq<string>) {
    HasRule(parts, "numeric") || HasRule(parts, "integer")
  }

  /** The loop over the rules: the first one that does not pass decides. */
  function ValidateEach(e: Engine, v: Value, parts: seq<string>, numeric: bool): Verdict {
    if parts == [] then Passed
    else
      var first := ValidateOne(e, v, parts[0], numeric);
      if first != Passed then first else ValidateEach(e, v, parts[1..], numeric)
  }

  function ValidateParts(e: Engine, v: Value, parts: seq<string>): Verdict {
    if IsEmpty(v) && !HasRule(parts, "required") then Passed
    else ValidateEach(e, v, parts, NumericContext(parts))
  }

  function ValidateEnvironment(e: Engine, v: Value, rules: Option<string>): Verdict {
    if rules.None? || rules.value == "" then Passed
    else ValidateParts(e, v, SplitRules(rules.value))
  }

  // ----- The algebra of rule lists -----

  lemma {:induction false} PassedMeansEachPasses(e: Engine, v: Value, parts: seq<string>, numeric: bool)
    ensures ValidateEach(e, v, parts, numeric) == Passed
      <==> forall i :: 0 <= i < |parts| ==> ValidateOne(e, v, parts[i], numeric) == Passed
  {
    if parts == [] {
    } else {
      PassedMeansEachPasses(e, v, parts[1..], numeric);
      assert forall i :: 0 < i < |parts| ==> parts[i] == parts[1..][i - 1];
    }
  }

  predicate SameRules(a: seq<string>, b: seq<string>) {
    && (forall i :: 0 <= i < |a| ==> a[i] in b)
    && (forall i :: 0 <= i < |b| ==> b[i] in a)
  }

  lemma SameRulesSameNames(a: seq<string>, b: seq<string>, name: string)
    requires SameRules(a, b)
    ensures HasRule(a, name) <==> HasRule(b, name)
  {
    if HasRule(a, name) {
      var i :| 0 <= i < |a| && RuleName(a[i]) == name;
      assert a[i] in b;
    }
    if HasRule(b, name) {
      var i :| 0 <= i < |b| && RuleName(b[i]) == name;
      assert b[i] in a;
    }
  }

  /** Acceptance depends on the set of rules alone: any reordering and any repetition
      of rules accepts the same values. */
  lemma AcceptanceIgnoresOrderAndRepetition(e: Engine, v: Value, a: string, b: string)
    requires SameRules(SplitRules(a), SplitRules(b))
    ensures ValidateEnvironment(e, v, Some(a)) == Passed <==> ValidateEnvironment(e, v, Some(b)) == Passed
  {
    EmptyRules();
    SameRulesSameVerdict(e, v, SplitRules(a), SplitRules(b));
  }

  lemma SameRulesSameVerdict(e: Engine, v: Value, p: seq<string>, q: seq<string>)
    requires SameRules(p, q)
    ensures ValidateParts(e, v, p) == Passed <==> ValidateParts(e, v, q) == Passed
  {
    SameRulesSameNames(p, q, "required");
    SameRulesSameNames(p, q, "numeric");
    SameRulesSameNames(p, q, "integer");
    SameRulesSameEach(e, v, p, q, NumericContext(p));
  }

  lemma SameRulesSameEach(e: Engine, v: Value, p: seq<string>, q: seq<string>, numeric: bool)
    requires SameRules(p, q)
    ensures ValidateEach(e, v, p, numeric) == Passed <==> ValidateEach(e, v, q, numeric) == Passed
  {
    PassedMeansEachPasses(e, v, p, numeric);
    PassedMeansEachPasses(e, v, q, numeric);
  }

  lemma EmptyRules()
    ensures SplitRules("") == []
  {
    SplitWhole("", '|');
    assert Trim([""]) == Trim([""][1..]);
  }

  /** An empty value is refused exactly when some rule is `required`, wherever it stands. */
  lemma EmptyAcceptedIffNotRequired(e: Engine, v: Value, rules: string)
    requires IsEmpty(v)
    ensures ValidateEnvironment(e, v, Some(rules)) == Passed <==> !HasRule(SplitRules(rules), "required")
  {
    var parts := SplitRules(rules);
    EmptyRules();
    PassedMeansEachPasses(e, v, parts, NumericContext(parts));
  }

  /** Writing trimmed, non-empty, pipe-free rules as one string and splitting it gives them back. */
  lemma SplitInvertsJoinedRules(rules: seq<string>)
    requires forall i :: 0 <= i < |rules| ==> rules[i] != "" && Trimmed(rules[i]) && '|' !in rules[i]
    ensures SplitRules(Join(rules, '|')) == rules
  {
    if rules == [] {
      EmptyRules();
    } else {
      SplitInvertsJoin(rules, '|');
      TrimKeepsTrimmed(rules);
    }
  }

  lemma {:induction false} TrimKeepsTrimmed(rules: seq<string>)
    requires forall i :: 0 <= i < |rules| ==> rules[i] != "" && Trimmed(rules[i])
    ensures Trim(rules) == rules
  {
    if rules == [] {
    } else {
      TrimmedStrip(rules[0]);
      TrimKeepsTrimmed(rules[1..]);
    }
  }

  /** The rule `name:args` as an egg author writes it. */
  function Rule(name: string, args: string): string {
    name + [':'] + args
  }

  lemma RuleReads(name: string, args: string)
    requires Plain(name)
    ensures RuleName(Rule(name, args)) == name
    ensures RuleArgs(Rule(name, args)) == SplitArgs(args)
  {
    PlainIsFixed(name);
    PartitionAt(name, ':', args);
  }

  lemma OneArg(a: string)
    requires a != "" && ',' !in a
    ensures SplitArgs(a) == [a]
  {
    SplitWhole(a, ',');
  }

  lemma TwoArgs(a: string, b: string)
    requires ',' !in a && ',' !in b
    ensures SplitArgs(a + [','] + b) == [a, b]
  {
    SplitAt(a, ',', b);
    SplitWhole(b, ',');
  }

  lemma MinRuleName()
    ensures Plain("min") && KindOf("min") == MinRule
  {
  }

  lemma MaxRuleName()
    ensures Plain("max") && KindOf("max") == MaxRule
  {
  }

  lemma BetweenRuleName()
    ensures Plain("between") && KindOf("between") == BetweenRule
  {
  }

  lemma DigitsRuleName()
    ensures Plain("digits") && KindOf("digits") == DigitsRule
  {
  }

  lemma DigitsBetweenRuleName()
    ensures Plain("digits_between") && KindOf("digits_between") == DigitsBetweenRule
  {
  }

  lemma MinMeans(e: Engine, v: Value, rule: string, a: string, numeric: bool)
    requires !IsEmpty(v) && KindOf(RuleName(rule)) == MinRule && RuleArgs(rule) == [a]
    ensures ValidateOne(e, v, rule, numeric) == Passed
       <==> e.toFloat(a).Some? && AtLeast(e, v, numeric, e.toFloat(a).value)
  {
  }

  lemma MaxMeans(e: Engine, v: Value, rule: string, b: string, numeric: bool)
    requires !IsEmpty(v) && KindOf(RuleName(rule)) == MaxRule && RuleArgs(rule) == [b]
    ensures ValidateOne(e, v, rule, numeric) == Passed
       <==> e.toFloat(b).Some? && AtMost(e, v, numeric, e.toFloat(b).value)
  {
  }

  lemma BetweenMeans(e: Engine, v: Value, rule: string, a: string, b: string, numeric: bool)
    requires !IsEmpty(v) && KindOf(RuleName(rule)) == BetweenRule && RuleArgs(rule) == [a, b]
    ensures ValidateOne(e, v, rule, numeric)
         == if e.toFloat(a).Some? && e.toFloat(b).Some?
            then Check(Within(e, v, numeric, e.toFloat(a).value, e.toFloat(b).value))
            else Crashed
  {
  }

  /** How the engine reads the three rules. */
  lemma BoundRulesRead(a: string, b: string)
    requires a != "" && b != "" && ',' !in a && ',' !in b
    ensures RuleName(Rule("between", a + [','] + b)) == "between" && RuleArgs(Rule("between", a + [','] + b)) == [a, b]
    ensures RuleName(Rule("min", a)) == "min" && RuleArgs(Rule("min", a)) == [a]
    ensures RuleName(Rule("max", b)) == "max" && RuleArgs(Rule("max", b)) == [b]
  {
    BetweenRuleName();
    RuleReads("between", a + [','] + b);
    TwoArgs(a, b);
    MinRuleName();
    RuleReads("min", a);
    OneArg(a);
    MaxRuleName();
    RuleReads("max", b);
    OneArg(b);
  }

  /** Where `between` and the pair `min`, `max` part: a NaN on either side of a numeric comparison,
      and a value that has no length compared by length. */
  predicate BetweenDiffers(e: Engine, v: Value, numeric: bool, lo: Num, hi: Num) {
    if numeric then
      var n := ToNumber(e, v);
      n.Some? && (n.value == NaN || lo == NaN || hi == NaN)
      && (n.value == NaN || lo == NaN || !Lt(n.value, lo))
      && (n.value == NaN || hi == NaN || !Lt(hi, n.value))
    else if v.Text? then
      (lo == NaN || hi == NaN) && !Lt(Size(v), lo) && !Lt(hi, Size(v))
    else !(Le(lo, Fin(0.0)) && Le(Fin(0.0), hi))
  }

  lemma BoundsAgree(e: Engine, v: Value, numeric: bool, lo: Num, hi: Num)
    ensures (Within(e, v, numeric, lo, hi) <==> AtLeast(e, v, numeric, lo) && AtMost(e, v, numeric, hi))
       <==> !BetweenDiffers(e, v, numeric, lo, hi)
  {
  }

  lemma BetweenPairAgree(e: Engine, v: Value, a: string, b: string, numeric: bool)
    requires !IsEmpty(v)
    requires a != "" && b != "" && ',' !in a && ',' !in b
    ensures var lo, hi := e.toFloat(a), e.toFloat(b);
            SameVerdict(e, v, Rule("between", a + [','] + b), Rule("min", a), Rule("max", b), numeric)
            <==> !(lo.Some? && hi.Some? && BetweenDiffers(e, v, numeric, lo.value, hi.value))
  {
    BoundRulesRead(a, b);
    BetweenRuleName();
    MinRuleName();
    MaxRuleName();
    MinMeans(e, v, Rule("min", a), a, numeric);
    MaxMeans(e, v, Rule("max", b), b, numeric);
    BetweenMeans(e, v, Rule("between", a + [','] + b), a, b, numeric);
    var lo, hi := e.toFloat(a), e.toFloat(b);
    if lo.Some? && hi.Some? {
      BoundsAgree(e, v, numeric, lo.value, hi.value);
    }
  }

  /** One rule passes exactly when two others both do. */
  predicate SameVerdict(e: Engine, v: Value, one: string, first: string, second: string, numeric: bool) {
    ValidateOne(e, v, one, numeric) == Passed
    <==> ValidateOne(e, v, first, numeric) == Passed && ValidateOne(e, v, second, numeric) == Passed
  }

  lemma {:induction false} EachSplits(e: Engine, v: Value, a: seq<string>, b: seq<string>, numeric: bool)
    ensures ValidateEach(e, v, a + b, numeric) == Passed
       <==> ValidateEach(e, v, a, numeric) == Passed && ValidateEach(e, v, b, numeric) == Passed
  {
    if a == [] {
      assert a + b == b;
    } else {
      assert (a + b)[1..] == a[1..] + b;
      EachSplits(e, v, a[1..], b, numeric);
    }
  }

  lemma NameSplits(a: seq<string>, b: seq<string>, name: string)
    ensures HasRule(a + b, name) <==> HasRule(a, name) || HasRule(b, name)
  {
    if HasRule(a, name) {
      var i :| 0 <= i < |a| && RuleName(a[i]) == name;
      assert RuleName((a + b)[i]) == name;
    }
    if HasRule(b, name) {
      var i :| 0 <= i < |b| && RuleName(b[i]) == name;
      assert RuleName((a + b)[|a| + i]) == name;
    }
  }

  /** A list with something in its middle, by the names of its parts. */
  lemma NameInMiddle(pre: seq<string>, middle: seq<string>, post: seq<string>, name: string)
    requires !HasRule(middle, name)
    ensures HasRule(pre + middle + post, name) <==> HasRule(pre + post, name)
  {
    NameSplits(pre + middle, post, name);
    NameSplits(pre, middle, name);
    NameSplits(pre, post, name);
  }

  /** A rule that neither demands a value nor changes what a number is. */
  predicate Ordinary(rule: string) {
    RuleName(rule) != "required" && RuleName(rule) != "numeric" && RuleName(rule) != "integer"
  }

  lemma MiddlePasses(e: Engine, v: Value, pre: seq<string>, middle: seq<string>, post: seq<string>)
    requires forall i :: 0 <= i < |middle| ==> Ordinary(middle[i])
    ensures NumericContext(pre + middle + post) == NumericContext(pre + post)
    ensures IsEmpty(v) ==>
              (ValidateParts(e, v, pre + middle + post) == Passed <==> ValidateParts(e, v, pre + post) == Passed)
    ensures !IsEmpty(v) ==>
              (ValidateParts(e, v, pre + middle + post) == Passed
               <==> ValidateParts(e, v, pre + post) == Passed
                    && ValidateEach(e, v, middle, NumericContext(pre + post)) == Passed)
  {
    var all, numeric := pre + middle + post, NumericContext(pre + post);
    NameInMiddle(pre, middle, post, "required");
    NameInMiddle(pre, middle, post, "numeric");
    NameInMiddle(pre, middle, post, "integer");
    if IsEmpty(v) {
      PassedMeansEachPasses(e, v, all, numeric);
      PassedMeansEachPasses(e, v, pre + post, numeric);
    } else {
      EachSplits(e, v, pre + middle, post, numeric);
      EachSplits(e, v, pre, middle, numeric);
      EachSplits(e, v, pre, post, numeric);
    }
  }

  lemma PairPasses(e: Engine, v: Value, one: string, first: string, second: string, numeric: bool)
    ensures ValidateEach(e, v, [one], numeric) == Passed <==> ValidateOne(e, v, one, numeric) == Passed
    ensures ValidateEach(e, v, [first, second], numeric) == Passed
       <==> ValidateOne(e, v, first, numeric) == Passed && ValidateOne(e, v, second, numeric) == Passed
  {
    PassedMeansEachPasses(e, v, [one], numeric);
    PassedMeansEachPasses(e, v, [first, second], numeric);
    assert [first, second][0] == first && [first, second][1] == second;
  }

  /** One ordinary rule for two in the middle of a list. */
  lemma SwapMiddle(e: Engine, v: Value, pre: seq<string>, one: string, first: string, second: string, post: seq<string>)
    requires Ordinary(one) && Ordinary(first) && Ordinary(second)
    ensures (ValidateParts(e, v, pre + [one] + post) == Passed
             <==> ValidateParts(e, v, pre + [first, second] + post) == Passed)
            <==> || IsEmpty(v) || ValidateParts(e, v, pre + post) != Passed
                 || SameVerdict(e, v, one, first, second, NumericContext(pre + post))
  {
    var numeric := NumericContext(pre + post);
    MiddlePasses(e, v, pre, [one], post);
    MiddlePasses(e, v, pre, [first, second], post);
    PairPasses(e, v, one, first, second, numeric);
  }

  lemma PartsDecide(e: Engine, v: Value, rules: string)
    requires SplitRules(rules) != []
    ensures ValidateEnvironment(e, v, Some(rules)) == ValidateParts(e, v, SplitRules(rules))
  {
    EmptyRules();
  }

  /** In any list of rules, `between:a,b` may be written as `min:a` with `max:b`: the same values are accepted,
      except exactly those filled-in values that pass all other rules in the cases of `BetweenDiffers`. */
  lemma BetweenIsMinAndMax(e: Engine, v: Value, one: string, two: string, pre: seq<string>, post: seq<string>,
                           a: string, b: string)
    requires a != "" && b != "" && ',' !in a && ',' !in b
    requires SplitRules(one) == pre + [Rule("between", a + [','] + b)] + post
    requires SplitRules(two) == pre + [Rule("min", a), Rule("max", b)] + post
    ensures var lo, hi := e.toFloat(a), e.toFloat(b);
            (ValidateEnvironment(e, v, Some(one)) == Passed <==> ValidateEnvironment(e, v, Some(two)) == Passed)
            <==> !(&& !IsEmpty(v) && ValidateParts(e, v, pre + post) == Passed && lo.Some? && hi.Some?
                   && BetweenDiffers(e, v, NumericContext(pre + post), lo.value, hi.value))
  {
    PartsDecide(e, v, one);
    PartsDecide(e, v, two);
    BoundRulesRead(a, b);
    SwapMiddle(e, v, pre, Rule("between", a + [','] + b), Rule("min", a), Rule("max", b), post);
    if !IsEmpty(v) {
      BetweenPairAgree(e, v, a, b, NumericContext(pre + post));
    }
  }

  /** What `digits:n` and `digits_between:n,n` both come to. */
  function ExactDigits(e: Engine, v: Value, n: string): Verdict {
    match e.toInt(n)
    case None => Crashed
    case Some(count) => Check(v.Text? && IsDigits(e, v.s) && |v.s| == count)
  }

  lemma DigitsMeans(e: Engine, v: Value, rule: string, n: string, numeric: bool)
    requires KindOf(RuleName(rule)) == DigitsRule && RuleArgs(rule) == [n]
    ensures ValidateOne(e, v, rule, numeric) == if IsEmpty(v) then Passed else ExactDigits(e, v, n)
  {
  }

  lemma DigitsBetweenMeans(e: Engine, v: Value, rule: string, n: string, numeric: bool)
    requires KindOf(RuleName(rule)) == DigitsBetweenRule && RuleArgs(rule) == [n, n]
    ensures ValidateOne(e, v, rule, numeric) == if IsEmpty(v) then Passed else ExactDigits(e, v, n)
  {
  }

  /** `digits:n` and `digits_between:n,n` give the same verdict on every value. */
  lemma DigitsIsDigitsBetween(e: Engine, v: Value, n: string, numeric: bool)
    requires n != "" && ',' !in n
    ensures ValidateOne(e, v, Rule("digits", n), numeric)
         == ValidateOne(e, v, Rule("digits_between", n + [','] + n), numeric)
  {
    DigitsRuleName();
    RuleReads("digits", n);
    OneArg(n);
    DigitsMeans(e, v, Rule("digits", n), n, numeric);
    DigitsBetweenRuleName();
    RuleReads("digits_between", n + [','] + n);
    TwoArgs(n, n);
    DigitsBetweenMeans(e, v, Rule("digits_between", n + [','] + n), n, numeric);
  }
}
