/** What the rule language means: the rules an egg author may write, what each asks of a filled-in text, said over the
    text, and that the validator accepts exactly the texts that meet all of them. */
module RuleMeaning {
  import opened Common
  import opened Rules
  import T = Text

  /** How a pattern is written: bare, between two delimiters, or between slashes with flags. */
  datatype Pattern = Bare(p: string) | Delimited(d: char, p: string) | Flagged(p: string, flags: string)

  datatype TextRule =
    | Required | Nullable | Sometimes
    | IsString | IsNumeric | IsInteger | IsBoolean
    | In(words: seq<string>) | NotIn(words: seq<string>)
    | Max(bound: string) | Min(bound: string) | Between(low: string, high: string) | Size(bound: string)
    | AlphaNum | AlphaDash | Url | Email
    | StartsWith(words: seq<string>) | EndsWith(words: seq<string>)
    | Regex(pattern: Pattern) | NotRegex(pattern: Pattern)
    | Digits(bound: string) | DigitsBetween(low: string, high: string)
    | Ip | Uuid
    /** A bound that is not given. */
    | Unbounded(kind: Kind)
    | Unknown(name: string)

  // ----- How it is written -----

  function Spelled(k: Kind): string {
    match k
    case RequiredRule => "required"
    case NullableRule => "nullable"
    case SometimesRule => "sometimes"
    case StringRule => "string"
    case NumericRule => "numeric"
    case IntegerRule => "integer"
    case BooleanRule => "boolean"
    case InRule => "in"
    case NotInRule => "not_in"
    case MaxRule => "max"
    case MinRule => "min"
    case BetweenRule => "between"
    case SizeRule => "size"
    case AlphaNumRule => "alpha_num"
    case AlphaDashRule => "alpha_dash"
    case UrlRule => "url"
    case EmailRule => "email"
    case StartsWithRule => "starts_with"
    case EndsWithRule => "ends_with"
    case RegexRule => "regex"
    case NotRegexRule => "not_regex"
    case DigitsRule => "digits"
    case DigitsBetweenRule => "digits_between"
    case IpRule => "ip"
    case UuidRule => "uuid"
    case UnknownRule => "?"
  }

  function WrittenPattern(p: Pattern): string {
    match p
    case Bare(s) => s
    case Delimited(d, s) => [d] + s + [d]
    case Flagged(s, flags) => ['/'] + s + ['/'] + flags
  }

  function KindFor(r: TextRule): Kind {
    match r
    case Required => RequiredRule
    case Nullable => NullableRule
    case Sometimes => SometimesRule
    case IsString => StringRule
    case IsNumeric => NumericRule
    case IsInteger => IntegerRule
    case IsBoolean => BooleanRule
    case In(_) => InRule
    case NotIn(_) => NotInRule
    case Max(_) => MaxRule
    case Min(_) => MinRule
    case Between(_, _) => BetweenRule
    case Size(_) => SizeRule
    case AlphaNum => AlphaNumRule
    case AlphaDash => AlphaDashRule
    case Url => UrlRule
    case Email => EmailRule
    case StartsWith(_) => StartsWithRule
    case EndsWith(_) => EndsWithRule
    case Regex(_) => RegexRule
    case NotRegex(_) => NotRegexRule
    case Digits(_) => DigitsRule
    case DigitsBetween(_, _) => DigitsBetweenRule
    case Ip => IpRule
    case Uuid => UuidRule
    case Unbounded(k) => k
    case Unknown(_) => UnknownRule
  }

  function NameFor(r: TextRule): string {
    if r.Unknown? then r.name else Spelled(KindFor(r))
  }

  /** What stands behind the colon, if there is one. */
  function ArgumentFor(r: TextRule): Option<string> {
    match r
    case In(words) => Some(T.Join(words, ','))
    case NotIn(words) => Some(T.Join(words, ','))
    case StartsWith(words) => Some(T.Join(words, ','))
    case EndsWith(words) => Some(T.Join(words, ','))
    case Max(b) => Some(b)
    case Min(b) => Some(b)
    case Size(b) => Some(b)
    case Digits(b) => Some(b)
    case Between(a, b) => Some(a + [','] + b)
    case DigitsBetween(a, b) => Some(a + [','] + b)
    case Regex(p) => Some(WrittenPattern(p))
    case NotRegex(p) => Some(WrittenPattern(p))
    case _ => None
  }

  function Written(r: TextRule): string {
    match ArgumentFor(r)
    case None => NameFor(r)
    case Some(argument) => Rule(NameFor(r), argument)
  }

  predicate Bounded(k: Kind) {
    k in {MaxRule, MinRule, BetweenRule, SizeRule, DigitsRule, DigitsBetweenRule}
  }

  predicate CommaFree(words: seq<string>) {
    words != [""] && forall i :: 0 <= i < |words| ==> ',' !in words[i]
  }

  predicate WellPatterned(p: Pattern) {
    match p
    case Bare(s) => s != "" && s[0] != '/' && s[0] != '#' && s[0] != '~'
    case Delimited(d, _) => d == '/' || d == '#' || d == '~'
    case Flagged(_, flags) => flags != "" && forall i :: 0 <= i < |flags| ==> flags[i] in "imsxu"
  }

  /** The rule can be written so that its parts can be told apart. */
  predicate WellWritten(r: TextRule) {
    && Written(r) != "" && T.Trimmed(Written(r)) && '|' !in Written(r)
    && match r
       case In(words) => CommaFree(words)
       case NotIn(words) => CommaFree(words)
       case StartsWith(words) => CommaFree(words)
       case EndsWith(words) => CommaFree(words)
       case Max(b) => b != "" && ',' !in b
       case Min(b) => b != "" && ',' !in b
       case Size(b) => b != "" && ',' !in b
       case Digits(b) => b != "" && ',' !in b
       case Between(a, b) => ',' !in a && ',' !in b
       case DigitsBetween(a, b) => ',' !in a && ',' !in b
       case Regex(p) => WellPatterned(p)
       case NotRegex(p) => WellPatterned(p)
       case Unbounded(k) => Bounded(k)
       case Unknown(name) => T.Plain(name) && forall k: Kind :: k != UnknownRule ==> name != Spelled(k)
       case _ => true
  }

  // ----- What it asks of a filled-in text -----

  /** The text as a pattern with `$` at its end sees it: one line feed at the end does not matter. */
  predicate Only(s: string, p: char -> bool) {
    var n := if s != "" && s[|s| - 1] == '\n' then |s| - 1 else |s|;
    n > 0 && forall i :: 0 <= i < n ==> p(s[i])
  }

  predicate LetterOrNumeral(c: char) {
    'a' <= c <= 'z' || 'A' <= c <= 'Z' || '0' <= c <= '9'
  }

  predicate YesOrNo(s: string) {
    || s == "1" || s == "true" || s == "on" || s == "yes"
    || s == "0" || s == "false" || s == "off" || s == "no"
  }

  /** The pattern as the search engine gets it. */
  function Searched(p: Pattern): string {
    match p
    case Bare(s) => s
    case Delimited(_, s) => s
    case Flagged(s, flags) => "(?" + flags + ")" + s
  }

  function Measured(e: Engine, s: string, numeric: bool): Option<Num> {
    if numeric then e.toFloat(s) else Some(Fin(|s| as real))
  }

  predicate Meets(e: Engine, s: string, r: TextRule, numeric: bool) {
    match r
    case IsNumeric => e.toFloat(s).Some?
    case IsInteger => Only(if s != "" && s[0] == '-' then s[1..] else s, e.isDigit)
    case IsBoolean => YesOrNo(s)
    case In(words) => s in words
    case NotIn(words) => s !in words
    case Max(b) =>
      e.toFloat(b).Some? && (Measured(e, s, numeric).Some? ==> !Lt(e.toFloat(b).value, Measured(e, s, numeric).value))
    case Min(b) =>
      e.toFloat(b).Some? && (Measured(e, s, numeric).Some? ==> !Lt(Measured(e, s, numeric).value, e.toFloat(b).value))
    case Between(a, b) =>
      && e.toFloat(a).Some? && e.toFloat(b).Some?
      && (Measured(e, s, numeric).Some? ==>
            var n := Measured(e, s, numeric).value;
            Le(e.toFloat(a).value, n) && Le(n, e.toFloat(b).value))
    case Size(b) =>
      (match e.toFloat(b)
       case None => false
       case Some(target) =>
         if numeric then e.toFloat(s) == Some(target) && target != NaN
         else target.Fin? && |s| as real <= target.r < |s| as real + 1.0)
    case AlphaNum => Only(s, LetterOrNumeral)
    case AlphaDash => Only(s, c => LetterOrNumeral(c) || c == '-' || c == '_')
    case Url => e.isUrl(s)
    case Email => e.isEmail(s)
    case StartsWith(words) => exists w :: w in words && w <= s
    case EndsWith(words) => exists w :: w in words && |w| <= |s| && s[|s| - |w|..] == w
    case Regex(p) => e.search(Searched(p), s) == Some(true)
    case NotRegex(p) => e.search(Searched(p), s) == Some(false)
    case Digits(b) => e.toInt(b) == Some(|s|) && Only(s, e.isDigit)
    case DigitsBetween(a, b) =>
      && e.toInt(a).Some? && e.toInt(b).Some?
      && e.toInt(a).value <= |s| <= e.toInt(b).value && Only(s, e.isDigit)
    case Ip => e.isIp(s)
    case Uuid => e.isUuid(s)
    case _ => true
  }

  // ----- The validator reads it so -----

  lemma KindIsRead1(k: Kind)
    requires k == RequiredRule || k == NullableRule || k == SometimesRule || k == StringRule || k == NumericRule
    ensures KindOf(Spelled(k)) == k && T.Plain(Spelled(k))
  {
    match k
    case RequiredRule =>
    case NullableRule =>
    case SometimesRule =>
    case StringRule =>
    case NumericRule =>
    case _ =>
  }

  lemma KindIsRead2(k: Kind)
    requires k == IntegerRule || k == BooleanRule || k == InRule || k == NotInRule || k == MaxRule
    ensures KindOf(Spelled(k)) == k && T.Plain(Spelled(k))
  {
    match k
    case IntegerRule =>
    case BooleanRule =>
    case InRule =>
    case NotInRule =>
    case MaxRule =>
    case _ =>
  }

  lemma KindIsRead3(k: Kind)
    requires k == MinRule || k == BetweenRule || k == SizeRule || k == AlphaNumRule || k == AlphaDashRule
    ensures KindOf(Spelled(k)) == k && T.Plain(Spelled(k))
  {
    match k
    case MinRule =>
    case BetweenRule =>
    case SizeRule =>
    case AlphaNumRule =>
    case AlphaDashRule =>
    case _ =>
  }

  lemma KindIsRead4(k: Kind)
    requires k == UrlRule || k == EmailRule || k == StartsWithRule || k == EndsWithRule || k == RegexRule
    ensures KindOf(Spelled(k)) == k && T.Plain(Spelled(k))
  {
    match k
    case UrlRule =>
    case EmailRule =>
    case StartsWithRule =>
    case EndsWithRule =>
    case RegexRule =>
    case _ =>
  }

  lemma KindIsRead5(k: Kind)
    requires k == NotRegexRule || k == DigitsRule || k == DigitsBetweenRule || k == IpRule || k == UuidRule
    ensures KindOf(Spelled(k)) == k && T.Plain(Spelled(k))
  {
    match k
    case NotRegexRule =>
    case DigitsRule =>
    case DigitsBetweenRule =>
    case IpRule =>
    case UuidRule =>
    case _ =>
  }

  lemma KindIsRead(k: Kind)
    requires k != UnknownRule
    ensures KindOf(Spelled(k)) == k && T.Plain(Spelled(k))
  {
    if k == RequiredRule || k == NullableRule || k == SometimesRule || k == StringRule || k == NumericRule {
      KindIsRead1(k);
    } else if k == IntegerRule || k == BooleanRule || k == InRule || k == NotInRule || k == MaxRule {
      KindIsRead2(k);
    } else if k == MinRule || k == BetweenRule || k == SizeRule || k == AlphaNumRule || k == AlphaDashRule {
      KindIsRead3(k);
    } else if k == UrlRule || k == EmailRule || k == StartsWithRule || k == EndsWithRule || k == RegexRule {
      KindIsRead4(k);
    } else {
      KindIsRead5(k);
    }
  }

  lemma BareReads(name: string)
    requires T.Plain(name)
    ensures RuleName(name) == name && RuleArgs(name) == []
  {
    T.PlainIsFixed(name);
    T.FindIs(name, ':', |name|);
    assert name[..|name|] == name;
  }

  lemma UnknownIsRead(name: string)
    requires forall k: Kind :: k != UnknownRule ==> name != Spelled(k)
    ensures KindOf(name) == UnknownRule
  {
    if KindOf(name) != UnknownRule {
      SpelledBack(name);
    }
  }

  lemma SpelledBack(name: string)
    requires KindOf(name) != UnknownRule
    ensures Spelled(KindOf(name)) == name
  {
  }

  lemma NameIsRead(r: TextRule)
    requires WellWritten(r)
    ensures RuleName(Written(r)) == NameFor(r) && KindOf(NameFor(r)) == KindFor(r)
    ensures RuleArgs(Written(r)) == if ArgumentFor(r).Some? then SplitArgs(ArgumentFor(r).value) else []
  {
    if r.Unknown? {
      UnknownIsRead(r.name);
      BareReads(r.name);
    } else {
      KindIsRead(KindFor(r));
      if ArgumentFor(r).Some? {
        RuleReads(NameFor(r), ArgumentFor(r).value);
      } else {
        BareReads(NameFor(r));
      }
    }
  }

  lemma JoinedIsFilled(words: seq<string>)
    requires words != [] && words != [""]
    ensures T.Join(words, ',') != ""
  {
  }

  lemma WordsAreRead(words: seq<string>)
    requires CommaFree(words)
    ensures SplitArgs(T.Join(words, ',')) == words
  {
    if words == [] {
    } else {
      T.SplitInvertsJoin(words, ',');
      JoinedIsFilled(words);
    }
  }

  function ArgsFor(r: TextRule): seq<string> {
    match r
    case In(words) => words
    case NotIn(words) => words
    case StartsWith(words) => words
    case EndsWith(words) => words
    case Max(b) => [b]
    case Min(b) => [b]
    case Size(b) => [b]
    case Digits(b) => [b]
    case Between(a, b) => [a, b]
    case DigitsBetween(a, b) => [a, b]
    case _ => []
  }

  lemma ArgsAreRead(r: TextRule)
    requires WellWritten(r) && !r.Regex? && !r.NotRegex?
    ensures RuleArgs(Written(r)) == ArgsFor(r)
  {
    NameIsRead(r);
    match r
    case In(words) => WordsAreRead(words);
    case NotIn(words) => WordsAreRead(words);
    case StartsWith(words) => WordsAreRead(words);
    case EndsWith(words) => WordsAreRead(words);
    case Max(b) => OneArg(b);
    case Min(b) => OneArg(b);
    case Size(b) => OneArg(b);
    case Digits(b) => OneArg(b);
    case Between(a, b) => TwoArgs(a, b);
    case DigitsBetween(a, b) => TwoArgs(a, b);
    case _ =>
  }

  // ----- And means this by it -----

  lemma OnlyIff(s: string, p: char -> bool)
    ensures AllChars(ToDollar(s), p) <==> Only(s, p)
  {
    var t := ToDollar(s);
    assert forall i :: 0 <= i < |t| ==> t[i] == s[i];
  }

  lemma OnlySame(s: string, p: char -> bool, q: char -> bool)
    requires forall c :: p(c) <==> q(c)
    ensures Only(s, p) <==> Only(s, q)
  {
  }

  lemma CharactersMean(e: Engine, s: string, rule: string, r: TextRule, numeric: bool)
    requires s != "" && (r.AlphaNum? || r.AlphaDash? || r.IsInteger?)
    ensures ValidateAs(e, Text(s), KindFor(r), [], rule, numeric) == Passed <==> Meets(e, s, r, numeric)
  {
    match r
    case AlphaNum =>
      OnlyIff(s, IsAlphaNum);
      OnlySame(s, IsAlphaNum, LetterOrNumeral);
    case AlphaDash =>
      OnlyIff(s, IsAlphaDash);
      OnlySame(s, IsAlphaDash, c => LetterOrNumeral(c) || c == '-' || c == '_');
    case IsInteger => OnlyIff(if s[0] == '-' then s[1..] else s, e.isDigit);
    case _ =>
  }

  lemma DigitsMean(e: Engine, s: string, rule: string, r: TextRule, numeric: bool)
    requires s != "" && (r.Digits? || r.DigitsBetween?)
    ensures ValidateAs(e, Text(s), KindFor(r), ArgsFor(r), rule, numeric) == Passed <==> Meets(e, s, r, numeric)
  {
    OnlyIff(s, e.isDigit);
  }

  lemma StartsIff(s: string, words: seq<string>)
    ensures StartsWithAny(s, words) <==> exists w :: w in words && w <= s
  {
    if StartsWithAny(s, words) {
      var i :| 0 <= i < |words| && words[i] <= s;
      assert words[i] in words;
    }
    if exists w :: w in words && w <= s {
      var w :| w in words && w <= s;
      var i :| 0 <= i < |words| && words[i] == w;
    }
  }

  lemma EndsIff(s: string, words: seq<string>)
    ensures EndsWithAny(s, words) <==> exists w :: w in words && |w| <= |s| && s[|s| - |w|..] == w
  {
    if EndsWithAny(s, words) {
      var i :| 0 <= i < |words| && |words[i]| <= |s| && s[|s| - |words[i]|..] == words[i];
      assert words[i] in words;
    }
    if exists w :: w in words && |w| <= |s| && s[|s| - |w|..] == w {
      var w :| w in words && |w| <= |s| && s[|s| - |w|..] == w;
      var i :| 0 <= i < |words| && words[i] == w;
    }
  }

  lemma ListedMeans(e: Engine, s: string, rule: string, r: TextRule, numeric: bool)
    requires s != "" && (r.In? || r.NotIn?)
    ensures ValidateAs(e, Text(s), KindFor(r), ArgsFor(r), rule, numeric) == Passed <==> Meets(e, s, r, numeric)
  {
  }

  lemma WordsMean(e: Engine, s: string, rule: string, r: TextRule, numeric: bool)
    requires s != "" && (r.In? || r.NotIn? || r.StartsWith? || r.EndsWith?)
    ensures ValidateAs(e, Text(s), KindFor(r), ArgsFor(r), rule, numeric) == Passed <==> Meets(e, s, r, numeric)
  {
    match r
    case StartsWith(words) => StartsIff(s, words);
    case EndsWith(words) => EndsIff(s, words);
    case _ => ListedMeans(e, s, rule, r, numeric);
  }

  lemma BoundsMean(e: Engine, s: string, rule: string, r: TextRule, numeric: bool)
    requires s != "" && (r.Max? || r.Min? || r.Between?)
    ensures ValidateAs(e, Text(s), KindFor(r), ArgsFor(r), rule, numeric) == Passed <==> Meets(e, s, r, numeric)
  {
  }

  lemma WholePart(n: nat, r: real)
    requires n > 0
    ensures n == (if r < 0.0 then -(-r).Floor else r.Floor) <==> n as real <= r < n as real + 1.0
  {
  }

  lemma SizeMeans(e: Engine, s: string, rule: string, b: string, numeric: bool)
    requires s != ""
    ensures ValidateAs(e, Text(s), SizeRule, [b], rule, numeric) == Passed <==> Meets(e, s, Size(b), numeric)
  {
    if e.toFloat(b).Some? && e.toFloat(b).value.Fin? {
      WholePart(|s|, e.toFloat(b).value.r);
    }
  }

  lemma YesOrNoIff(s: string)
    requires s != ""
    ensures IsBooleanWord(Text(s)) <==> YesOrNo(s)
  {
  }

  /** The rules without an argument, and those whose bound is not given. */
  lemma SimpleMeans(e: Engine, s: string, rule: string, r: TextRule, numeric: bool)
    requires s != "" && ArgumentFor(r).None? && !r.AlphaNum? && !r.AlphaDash? && !r.IsInteger?
    requires !r.Required? && !r.Nullable? && !r.Sometimes? && (r.Unbounded? ==> Bounded(r.kind))
    ensures ValidateAs(e, Text(s), KindFor(r), [], rule, numeric) == Passed <==> Meets(e, s, r, numeric)
  {
    YesOrNoIff(s);
  }

  lemma LastSlashIs(p: string, i: nat)
    requires i < |p| && p[i] == '/' && forall k :: i < k < |p| ==> p[k] != '/'
    ensures LastSlash(p) == i
    decreases |p|
  {
    if i == |p| - 1 {
    } else {
      LastSlashIs(p[..|p| - 1], i);
    }
  }

  lemma {:induction false} KnownFlagsKeep(flags: string)
    requires forall i :: 0 <= i < |flags| ==> flags[i] in "imsxu"
    ensures KnownFlags(flags) == flags
  {
    if flags == "" {
    } else {
      KnownFlagsKeep(flags[1..]);
      assert [flags[0]] + flags[1..] == flags;
    }
  }

  lemma FlagsAreRead(s: string, flags: string)
    requires flags != "" && forall i :: 0 <= i < |flags| ==> flags[i] in "imsxu"
    ensures StripDelimiters(WrittenPattern(Flagged(s, flags))) == Searched(Flagged(s, flags))
  {
    var w, i := WrittenPattern(Flagged(s, flags)), |s| + 1;
    assert w[0] == '/' && w[i] == '/' && w[i + 1..] == flags && w[1..i] == s;
    assert w[|w| - 1] == flags[|flags| - 1];
    LastSlashIs(w, i);
    KnownFlagsKeep(flags);
  }

  lemma DelimitersAreRead(d: char, s: string)
    requires d == '/' || d == '#' || d == '~'
    ensures StripDelimiters(WrittenPattern(Delimited(d, s))) == s
  {
    var w := WrittenPattern(Delimited(d, s));
    assert w[0] == d && w[|w| - 1] == d && w[1..|w| - 1] == s;
  }

  lemma PatternIsRead(p: Pattern)
    requires WellPatterned(p)
    ensures StripDelimiters(WrittenPattern(p)) == Searched(p)
  {
    match p
    case Bare(s) =>
    case Delimited(d, s) => DelimitersAreRead(d, s);
    case Flagged(s, flags) => FlagsAreRead(s, flags);
  }

  lemma RawIsRead(name: string, pattern: string)
    ensures RawFrom(Rule(name, pattern), |name| + 1) == pattern
  {
    assert Rule(name, pattern)[|name| + 1..] == pattern;
  }

  lemma RegexIsRaw(p: Pattern)
    ensures RawFrom(Written(Regex(p)), 6) == WrittenPattern(p)
  {
    var name := "regex";
    assert |name| == 5;
    RawIsRead(name, WrittenPattern(p));
  }

  lemma NotRegexIsRaw(p: Pattern)
    ensures RawFrom(Written(NotRegex(p)), 10) == WrittenPattern(p)
  {
    var name := "not_regex";
    assert |name| == 9;
    RawIsRead(name, WrittenPattern(p));
  }

  lemma RegexMeans(e: Engine, s: string, rule: string, p: Pattern, args: seq<string>, numeric: bool)
    requires WellPatterned(p) && RawFrom(rule, 6) == WrittenPattern(p)
    ensures ValidateAs(e, Text(s), RegexRule, args, rule, numeric) == Passed <==> Meets(e, s, Regex(p), numeric)
  {
    PatternIsRead(p);
  }

  lemma NotRegexMeans(e: Engine, s: string, rule: string, p: Pattern, args: seq<string>, numeric: bool)
    requires WellPatterned(p) && RawFrom(rule, 10) == WrittenPattern(p)
    ensures ValidateAs(e, Text(s), NotRegexRule, args, rule, numeric) == Passed
       <==> Meets(e, s, NotRegex(p), numeric)
  {
    PatternIsRead(p);
  }

  lemma PatternMeans(e: Engine, s: string, r: TextRule, args: seq<string>, numeric: bool)
    requires (r.Regex? || r.NotRegex?) && WellPatterned(r.pattern)
    ensures ValidateAs(e, Text(s), KindFor(r), args, Written(r), numeric) == Passed <==> Meets(e, s, r, numeric)
  {
    match r
    case Regex(p) => RegexIsRaw(p); RegexMeans(e, s, Written(r), p, args, numeric);
    case NotRegex(p) => NotRegexIsRaw(p); NotRegexMeans(e, s, Written(r), p, args, numeric);
    case _ =>
  }

  lemma ArgsDecide(e: Engine, s: string, rule: string, r: TextRule, numeric: bool)
    requires s != "" && WellWritten(r) && !r.Regex? && !r.NotRegex?
    requires !r.Required? && !r.Nullable? && !r.Sometimes?
    ensures ValidateAs(e, Text(s), KindFor(r), ArgsFor(r), rule, numeric) == Passed <==> Meets(e, s, r, numeric)
  {
    if r.AlphaNum? || r.AlphaDash? || r.IsInteger? {
      CharactersMean(e, s, rule, r, numeric);
    } else if r.Digits? || r.DigitsBetween? {
      DigitsMean(e, s, rule, r, numeric);
    } else if r.In? || r.NotIn? || r.StartsWith? || r.EndsWith? {
      WordsMean(e, s, rule, r, numeric);
    } else if r.Max? || r.Min? || r.Between? {
      BoundsMean(e, s, rule, r, numeric);
    } else if r.Size? {
      SizeMeans(e, s, rule, r.bound, numeric);
    } else {
      SimpleMeans(e, s, rule, r, numeric);
    }
  }

  lemma JudgedByKind(e: Engine, s: string, r: TextRule, args: seq<string>, numeric: bool)
    requires s != "" && WellWritten(r) && (r.Regex? || r.NotRegex? || args == ArgsFor(r))
    ensures (|| r.Required? || r.Nullable? || r.Sometimes?
             || ValidateAs(e, Text(s), KindFor(r), args, Written(r), numeric) == Passed)
            <==> Meets(e, s, r, numeric)
  {
    if r.Regex? || r.NotRegex? {
      PatternMeans(e, s, r, args, numeric);
    } else if !r.Required? && !r.Nullable? && !r.Sometimes? {
      ArgsDecide(e, s, Written(r), r, numeric);
    }
  }

  lemma KindDecides(e: Engine, s: string, rule: string, kind: Kind, numeric: bool)
    requires s != "" && KindOf(RuleName(rule)) == kind
    ensures ValidateOne(e, Text(s), rule, numeric)
         == if kind == RequiredRule || kind == NullableRule || kind == SometimesRule then Passed
            else ValidateAs(e, Text(s), kind, RuleArgs(rule), rule, numeric)
  {
  }

  /** One rule against one filled-in text. */
  lemma RuleMeans(e: Engine, s: string, r: TextRule, numeric: bool)
    requires s != "" && WellWritten(r)
    ensures ValidateOne(e, Text(s), Written(r), numeric) == Passed <==> Meets(e, s, r, numeric)
  {
    NameIsRead(r);
    KindDecides(e, s, Written(r), KindFor(r), numeric);
    if !r.Regex? && !r.NotRegex? {
      ArgsAreRead(r);
    }
    JudgedByKind(e, s, r, RuleArgs(Written(r)), numeric);
  }

  // ----- Lists of rules -----

  function WrittenList(rules: seq<TextRule>): seq<string> {
    seq(|rules|, i requires 0 <= i < |rules| => Written(rules[i]))
  }

  /** How an author writes the list. */
  function RuleText(rules: seq<TextRule>): string {
    T.Join(WrittenList(rules), '|')
  }

  predicate AllWellWritten(rules: seq<TextRule>) {
    forall i :: 0 <= i < |rules| ==> WellWritten(rules[i])
  }

  /** For the kinds of rule that only one rule has. */
  lemma NameOccursIff(rules: seq<TextRule>, r: TextRule, name: string)
    requires AllWellWritten(rules) && (r == Required || r == IsNumeric || r == IsInteger)
    requires KindOf(name) == KindFor(r) && Spelled(KindFor(r)) == name
    ensures HasRule(WrittenList(rules), name) <==> r in rules
  {
    var parts := WrittenList(rules);
    forall i | 0 <= i < |rules| ensures RuleName(parts[i]) == name <==> rules[i] == r {
      NameIsReadIff(rules[i], r, name);
    }
  }

  lemma NameIsReadIff(x: TextRule, r: TextRule, name: string)
    requires WellWritten(x) && (r == Required || r == IsNumeric || r == IsInteger)
    requires KindOf(name) == KindFor(r) && Spelled(KindFor(r)) == name
    ensures RuleName(Written(x)) == name <==> x == r
  {
    NameIsRead(x);
    if RuleName(Written(x)) == name {
      KindTells(x, r);
    }
  }

  lemma KindTells(x: TextRule, r: TextRule)
    requires WellWritten(x) && (r == Required || r == IsNumeric || r == IsInteger)
    requires KindFor(x) == KindFor(r)
    ensures x == r
  {
  }

  /** The list asks for numbers rather than lengths. */
  predicate AboutNumbers(rules: seq<TextRule>) {
    IsNumeric in rules || IsInteger in rules
  }

  lemma ListIsSplit(rules: seq<TextRule>)
    requires AllWellWritten(rules)
    ensures SplitRules(RuleText(rules)) == WrittenList(rules)
  {
    SplitInvertsJoinedRules(WrittenList(rules));
  }

  lemma ListIsRead(rules: seq<TextRule>)
    requires AllWellWritten(rules)
    ensures HasRule(WrittenList(rules), "required") <==> Required in rules
  {
    KindIsRead1(RequiredRule);
    NameOccursIff(rules, Required, "required");
  }

  lemma NumbersAreAsked(rules: seq<TextRule>)
    requires AllWellWritten(rules)
    ensures NumericContext(WrittenList(rules)) <==> AboutNumbers(rules)
  {
    KindIsRead1(NumericRule);
    KindIsRead2(IntegerRule);
    NameOccursIff(rules, IsNumeric, "numeric");
    NameOccursIff(rules, IsInteger, "integer");
  }

  lemma EachMeans(e: Engine, s: string, rules: seq<TextRule>, numeric: bool)
    requires s != "" && AllWellWritten(rules)
    ensures ValidateEach(e, Text(s), WrittenList(rules), numeric) == Passed
       <==> forall i :: 0 <= i < |rules| ==> Meets(e, s, rules[i], numeric)
  {
    var parts := WrittenList(rules);
    PassedMeansEachPasses(e, Text(s), parts, numeric);
    forall i | 0 <= i < |rules|
      ensures ValidateOne(e, Text(s), parts[i], numeric) == Passed <==> Meets(e, s, rules[i], numeric)
    {
      RuleMeans(e, s, rules[i], numeric);
    }
  }

  lemma FilledIsJudged(e: Engine, s: string, rules: string)
    requires s != ""
    ensures var parts := SplitRules(rules);
            ValidateEnvironment(e, Text(s), Some(rules)) == ValidateEach(e, Text(s), parts, NumericContext(parts))
  {
    EmptyRules();
  }

  /** The validator accepts a text under a list of rules exactly when it is empty and not required, or meets every
      rule of the list. */
  lemma AcceptedIff(e: Engine, s: string, rules: seq<TextRule>)
    requires AllWellWritten(rules)
    ensures ValidateEnvironment(e, Text(s), Some(RuleText(rules))) == Passed
       <==> if s == "" then Required !in rules
            else forall i :: 0 <= i < |rules| ==> Meets(e, s, rules[i], AboutNumbers(rules))
  {
    ListIsSplit(rules);
    ListIsRead(rules);
    NumbersAreAsked(rules);
    if s == "" {
      EmptyAcceptedIffNotRequired(e, Text(s), RuleText(rules));
    } else {
      FilledIsJudged(e, s, RuleText(rules));
      EachMeans(e, s, rules, AboutNumbers(rules));
    }
  }

  lemma OneRuleAcceptedIff(e: Engine, s: string, r: TextRule)
    requires WellWritten(r) && r != Required
    ensures ValidateEnvironment(e, Text(s), Some(Written(r))) == Passed
       <==> s == "" || Meets(e, s, r, AboutNumbers([r]))
  {
    var rules := [r];
    assert WrittenList(rules) == [Written(r)];
    AcceptedIff(e, s, rules);
    assert s != "" && Meets(e, s, rules[0], AboutNumbers(rules)) ==>
        forall i :: 0 <= i < |rules| ==> Meets(e, s, rules[i], AboutNumbers(rules));
  }

  /** A finite bound bounds the length, or in a list that asks for numbers the number; it is met when it is equal. */
  lemma BoundsCompare(e: Engine, s: string, b: string, x: real)
    requires e.toFloat(b) == Some(Fin(x))
    ensures Meets(e, s, Max(b), false) <==> |s| as real <= x
    ensures Meets(e, s, Min(b), false) <==> x <= |s| as real
    ensures Meets(e, s, Between(b, b), false) <==> |s| as real == x
    ensures forall y :: e.toFloat(s) == Some(Fin(y)) ==>
              && (Meets(e, s, Max(b), true) <==> y <= x)
              && (Meets(e, s, Min(b), true) <==> x <= y)
  {
  }

  lemma InIsWritten(words: string)
    ensures Rule(Spelled(InRule), words) == "in:" + words
  {
    assert "in" + [':'] == "in:";
  }

  lemma NotInIsWritten(words: string)
    ensures Rule(Spelled(NotInRule), words) == "not_in:" + words
  {
    assert "not_in" + [':'] == "not_in:";
  }

  /** For instance, a list of words. */
  lemma InMeans(e: Engine, s: string, words: seq<string>)
    requires WellWritten(In(words))
    ensures ValidateEnvironment(e, Text(s), Some("in:" + T.Join(words, ','))) == Passed <==> s == "" || s in words
  {
    OneRuleAcceptedIff(e, s, In(words));
    InIsWritten(T.Join(words, ','));
  }

  lemma NotInMeans(e: Engine, s: string, words: seq<string>)
    requires WellWritten(NotIn(words))
    ensures ValidateEnvironment(e, Text(s), Some("not_in:" + T.Join(words, ','))) == Passed <==> s == "" || s !in words
  {
    OneRuleAcceptedIff(e, s, NotIn(words));
    NotInIsWritten(T.Join(words, ','));
  }

  // ----- Other ways to write a rule's name -----

  /** The same letter, large or small. */
  predicate SameLetter(a: char, b: char) {
    a == b || ('A' <= a <= 'Z' && 'a' <= b <= 'z' && a as int - 'A' as int == b as int - 'a' as int)
  }

  /** A name in capitals, with spaces around it, is the same name. */
  lemma NameIsReadLoosely(before: string, spelled: string, after: string, name: string)
    requires T.AllSpace(before) && T.AllSpace(after) && T.Plain(name) && name != ""
    requires |spelled| == |name| && forall i :: 0 <= i < |name| ==> SameLetter(spelled[i], name[i])
    ensures RuleName(before + spelled + after) == name
  {
    var s := before + spelled + after;
    assert ':' !in spelled && ':' !in s;
    T.FindIs(s, ':', |s|);
    assert s[..|s|] == s;
    assert T.Trimmed(spelled);
    T.StripIs(before, spelled, after);
  }
}
