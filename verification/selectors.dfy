/** Device selectors as CEL expression trees, and what the pod annotations make them accept. */
module Selectors {
  import opened Options
  import opened DeviceConfigs
  import opened AnnotationValues

  /******* Devices and expressions *******/

  /** An attribute value; only string values are told apart. */
  datatype AttributeValue = Text(s: string) | OtherType

  datatype Field = Field(domain: string, name: string)

  datatype Device = Device(
    driver: string,
    attributes: map<Field, AttributeValue>,
    memory: map<string, real>)

  datatype Expr =
    | DriverIs(driver: string)
    | TypeIs(field: Field, value: string)
    | Has(field: Field)
    | OneOf(field: Field, literals: seq<string>)
    // [parts].exists(t, field.lowerAscii().contains(t))
    | SomePart(field: Field, parts: seq<string>)
    | MemoryIs(domain: string, bytes: int)
    | Not(e: Expr)
    | And(l: Expr, r: Expr)
    | Or(l: Expr, r: Expr)

  datatype Outcome = Yes | No | Error

  function Of(b: bool): Outcome {
    if b then Yes else No
  }

  /** Logical or absorbs an error when the other side is true. */
  function Either(a: Outcome, b: Outcome): Outcome {
    if a == Yes || b == Yes then Yes else if a == Error || b == Error then Error else No
  }

  /** Logical and absorbs an error when the other side is false. */
  function Both(a: Outcome, b: Outcome): Outcome {
    if a == No || b == No then No else if a == Error || b == Error then Error else Yes
  }

  predicate Contains(s: string, part: string) {
    exists i | 0 <= i <= |s| :: part <= s[i..]
  }

  /** The exists macro: an or over the list. Only a string can be lower-cased. */
  function PartsOutcome(value: Option<AttributeValue>, parts: seq<string>): Outcome {
    if parts == [] then No
    else
      var n := |parts| - 1;
      Either(PartsOutcome(value, parts[..n]),
             match value
             case Some(Text(s)) => Of(Contains(ToLower(s), parts[n]))
             case _ => Error)
  }

  function Get(d: Device, f: Field): Option<AttributeValue> {
    if f in d.attributes then Some(d.attributes[f]) else None
  }

  function Eval(e: Expr, d: Device): Outcome {
    match e
    case DriverIs(driver) => Of(d.driver == driver)
    case TypeIs(f, v) =>
      (match Get(d, f) case None => Error case Some(x) => Of(x == Text(v)))
    case Has(f) => Of(f in d.attributes)
    case OneOf(f, literals) =>
      (match Get(d, f)
       case None => Error
       case Some(Text(s)) => Of(s in literals)
       case Some(OtherType) => No)
    case SomePart(f, parts) => PartsOutcome(Get(d, f), parts)
    case MemoryIs(domain, bytes) =>
      if domain in d.memory then Of(d.memory[domain] == bytes as real) else Error
    case Not(x) => (match Eval(x, d) case Yes => No case No => Yes case Error => Error)
    case And(l, r) => Both(Eval(l, d), Eval(r, d))
    case Or(l, r) => Either(Eval(l, d), Eval(r, d))
  }

  /** A request's selectors pick a device when each of them is true of it. */
  predicate Accepts(selectors: seq<Expr>, d: Device) {
    forall e | e in selectors :: Eval(e, d) == Yes
  }

  /******* Selectors from annotations *******/

  datatype Rule = Rule(annotation: string, name: string, negate: bool)

  function Rules(cfg: DeviceConfig): (r: seq<Rule>)
    ensures |r| == 4
  {
    [Rule(cfg.useUuid, "uuid", false), Rule(cfg.noUseUuid, "uuid", true),
     Rule(cfg.useType, "productName", false), Rule(cfg.noUseType, "productName", true)]
  }

  predicate Substring(cfg: DeviceConfig, rule: Rule) {
    rule.name == "productName" && cfg.typeSubstring
  }

  function RuleField(cfg: DeviceConfig, rule: Rule): Field {
    Field(cfg.EffectiveDriver(), rule.name)
  }

  function RuleExpr(cfg: DeviceConfig, rule: Rule, raw: string): Expr {
    var f, values := RuleField(cfg, rule), ValuesOf(raw);
    var match' := if Substring(cfg, rule) then SomePart(f, Parts(values)) else OneOf(f, values);
    if rule.negate then Or(Not(Has(f)), Not(match'))
    else if Substring(cfg, rule) then And(Has(f), match')
    else match'
  }

  /** The selectors of the first n rules. */
  function SelectorsUpTo(cfg: DeviceConfig, annotations: map<string, string>, n: nat): Result<seq<Expr>>
    requires n <= 4
  {
    if n == 0 then Success([])
    else
      match SelectorsUpTo(cfg, annotations, n - 1)
      case Failure => Failure
      case Success(before) =>
        var rule := Rules(cfg)[n - 1];
        if rule.annotation !in annotations then Success(before)
        else if ValuesOf(annotations[rule.annotation]) == [] then Failure
        else Success(before + [RuleExpr(cfg, rule, annotations[rule.annotation])])
  }

  function AnnotationSelectors(cfg: DeviceConfig, annotations: map<string, string>): Result<seq<Expr>> {
    SelectorsUpTo(cfg, annotations, 4)
  }

  /** The loop over the four annotations, appending to the selectors the request already has. */
  method AddAnnotationSelectors(selectors: seq<Expr>, cfg: DeviceConfig, annotations: map<string, string>)
    returns (r: Result<seq<Expr>>)
    ensures AnnotationSelectors(cfg, annotations).Failure? <==> r.Failure?
    ensures r.Success? ==> r.value == selectors + AnnotationSelectors(cfg, annotations).value
  {
    var added := selectors;
    var driver := cfg.EffectiveDriver();
    var rules := [Rule(cfg.useUuid, "uuid", false), Rule(cfg.noUseUuid, "uuid", true),
                  Rule(cfg.useType, "productName", false), Rule(cfg.noUseType, "productName", true)];
    for k := 0 to 4
      invariant SelectorsUpTo(cfg, annotations, k).Success?
      invariant added == selectors + SelectorsUpTo(cfg, annotations, k).value
    {
      var rule := rules[k];
      if rule.annotation in annotations {
        var values := ValuesOf(annotations[rule.annotation]);
        if values == [] {
          UnusableFails(cfg, annotations, k + 1, 4);
          return Failure;
        }
        var attribute := Field(driver, rule.name);
        var listed := OneOf(attribute, values);
        var substring := rule.name == "productName" && cfg.typeSubstring;
        if substring { listed := SomePart(attribute, Parts(values)); }
        var expr := listed;
        if rule.negate {
          expr := Or(Not(Has(attribute)), Not(listed));
        } else if substring {
          expr := And(Has(attribute), listed);
        }
        added := added + [expr];
      }
    }
    return Success(added);
  }

  lemma NoAnnotations(cfg: DeviceConfig)
    ensures AnnotationSelectors(cfg, map[]) == Success([])
  {
    NoneUpTo(cfg, 4);
  }

  lemma {:induction false} NoneUpTo(cfg: DeviceConfig, n: nat)
    requires n <= 4
    ensures SelectorsUpTo(cfg, map[], n) == Success([])
  {
    if n > 0 { NoneUpTo(cfg, n - 1); }
  }

  lemma {:induction false} UnusableFails(cfg: DeviceConfig, annotations: map<string, string>, k: nat, n: nat)
    requires k <= n <= 4 && SelectorsUpTo(cfg, annotations, k).Failure?
    ensures SelectorsUpTo(cfg, annotations, n).Failure?
  {
    if k < n { UnusableFails(cfg, annotations, k, n - 1); }
  }

  /******* What they mean *******/

  /** Some value of the list names the text, as the selector decides it. */
  predicate Matches(cfg: DeviceConfig, rule: Rule, raw: string, text: string) {
    exists v | v in ValuesOf(raw) ::
      if Substring(cfg, rule) then Contains(ToLower(text), NamePart(v)) else text == v
  }

  lemma {:induction false} PartsMeaning(value: Option<AttributeValue>, parts: seq<string>)
    ensures value.Some? && value.value.Text? ==>
      PartsOutcome(value, parts) == Of(exists p | p in parts :: Contains(ToLower(value.value.s), p))
    ensures !(value.Some? && value.value.Text?) ==>
      PartsOutcome(value, parts) == if parts == [] then No else Error
  {
    if parts != [] {
      var n := |parts| - 1;
      PartsMeaning(value, parts[..n]);
      assert parts == parts[..n] + [parts[n]];
    }
  }

  lemma PartsOfValues(values: seq<string>, text: string)
    ensures (exists p | p in Parts(values) :: Contains(text, p))
            <==> exists v | v in values :: Contains(text, NamePart(v))
  {
    if p :| p in Parts(values) && Contains(text, p) {
      var i :| 0 <= i < |values| && p == Parts(values)[i];
      assert values[i] in values && Contains(text, NamePart(values[i]));
    }
    if v :| v in values && Contains(text, NamePart(v)) {
      var i :| 0 <= i < |values| && v == values[i];
      assert Parts(values)[i] in Parts(values);
    }
  }

  /**
   The outcome of one annotation's selector on any device. An exclusion is true of a device without the
   attribute; only a plain allow-list needs the attribute to be there, and only a substring match needs
   it to be a string.
   */
  lemma RuleMeaning(cfg: DeviceConfig, rule: Rule, raw: string, d: Device)
    requires ValuesOf(raw) != []
    ensures Eval(RuleExpr(cfg, rule, raw), d) ==
      match Get(d, RuleField(cfg, rule)) {
        case None => if rule.negate then Yes else if Substring(cfg, rule) then No else Error
        case Some(Text(s)) => Of(Matches(cfg, rule, raw, s) != rule.negate)
        case Some(OtherType) => if Substring(cfg, rule) then Error else Of(rule.negate)
      }
  {
    hide ValuesOf, NamePart;
    var f, values := RuleField(cfg, rule), ValuesOf(raw);
    var value := Get(d, f);
    var listed := if Substring(cfg, rule) then SomePart(f, Parts(values)) else OneOf(f, values);
    assert Eval(Not(Has(f)), d) == Of(value.None?);
    assert Eval(Not(listed), d) == match Eval(listed, d) { case Yes => No case No => Yes case Error => Error };
    if Substring(cfg, rule) {
      PartsMeaning(value, Parts(values));
      if value.Some? && value.value.Text? {
        PartsOfValues(values, ToLower(value.value.s));
        assert Matches(cfg, rule, raw, value.value.s)
          <==> exists v | v in values :: Contains(ToLower(value.value.s), NamePart(v));
      }
    } else if value.Some? && value.value.Text? {
      assert Matches(cfg, rule, raw, value.value.s) <==> value.value.s in values;
    }
  }

  predicate RuleAllows(cfg: DeviceConfig, rule: Rule, annotations: map<string, string>, d: Device) {
    rule.annotation in annotations ==>
      match Get(d, RuleField(cfg, rule)) {
        case None => rule.negate
        case Some(Text(s)) => Matches(cfg, rule, annotations[rule.annotation], s) != rule.negate
        case Some(OtherType) => rule.negate && !Substring(cfg, rule)
      }
  }

  lemma {:induction false} AcceptsUpTo(cfg: DeviceConfig, annotations: map<string, string>, n: nat, d: Device)
    requires n <= 4 && SelectorsUpTo(cfg, annotations, n).Success?
    ensures Accepts(SelectorsUpTo(cfg, annotations, n).value, d)
            <==> forall k | 0 <= k < n :: RuleAllows(cfg, Rules(cfg)[k], annotations, d)
  {
    hide RuleExpr, Matches, ValuesOf, Eval;
    if n > 0 {
      AcceptsUpTo(cfg, annotations, n - 1, d);
      var rule := Rules(cfg)[n - 1];
      if rule.annotation in annotations {
        RuleMeaning(cfg, rule, annotations[rule.annotation], d);
      }
    }
  }

  /** The selectors accept exactly the devices that every annotation allows. */
  lemma AcceptsIff(cfg: DeviceConfig, annotations: map<string, string>, d: Device)
    requires AnnotationSelectors(cfg, annotations).Success?
    ensures Accepts(AnnotationSelectors(cfg, annotations).value, d)
            <==> forall k | 0 <= k < 4 :: RuleAllows(cfg, Rules(cfg)[k], annotations, d)
  {
    AcceptsUpTo(cfg, annotations, 4, d);
  }

  lemma {:induction false} RejectedUpTo(cfg: DeviceConfig, annotations: map<string, string>, n: nat)
    requires n <= 4
    ensures SelectorsUpTo(cfg, annotations, n).Failure?
            <==> exists k | 0 <= k < n ::
              Rules(cfg)[k].annotation in annotations && ValuesOf(annotations[Rules(cfg)[k].annotation]) == []
  {
    if n > 0 { RejectedUpTo(cfg, annotations, n - 1); }
  }

  /** An annotation is rejected exactly when it holds no usable value. */
  lemma RejectedIff(cfg: DeviceConfig, annotations: map<string, string>)
    ensures AnnotationSelectors(cfg, annotations).Failure?
            <==> exists k | 0 <= k < 4 ::
              Rules(cfg)[k].annotation in annotations && ValuesOf(annotations[Rules(cfg)[k].annotation]) == []
  {
    RejectedUpTo(cfg, annotations, 4);
  }

  /** The text is one of the listed names, or for a substring config contains one, as they are normalised. */
  ghost predicate Lists(raw: string, text: string, substring: bool) {
    exists v :: IsValue(raw, v) && if substring then Contains(ToLower(text), NamePart(v)) else text == v
  }

  /** An allow-list admits only a string it lists. */
  ghost predicate AllowedBy(raw: string, value: Option<AttributeValue>, substring: bool) {
    match value
    case Some(Text(text)) => Lists(raw, text, substring)
    case _ => false
  }

  /** An exclusion list shuts out a string it lists, and a value of another type if it looks for substrings. */
  ghost predicate ExcludedBy(raw: string, value: Option<AttributeValue>, substring: bool) {
    match value
    case None => false
    case Some(Text(text)) => Lists(raw, text, substring)
    case Some(OtherType) => substring
  }

  /** What the four annotations ask of the device's "uuid" and "productName" in the driver's domain. */
  ghost predicate AnnotationsAllow(cfg: DeviceConfig, annotations: map<string, string>, d: Device) {
    var domain := if cfg.driverName == "" then "hami-core-gpu.project-hami.io" else cfg.driverName;
    var uuid, product := Get(d, Field(domain, "uuid")), Get(d, Field(domain, "productName"));
    && (cfg.useUuid in annotations ==> AllowedBy(annotations[cfg.useUuid], uuid, false))
    && (cfg.noUseUuid in annotations ==> !ExcludedBy(annotations[cfg.noUseUuid], uuid, false))
    && (cfg.useType in annotations ==> AllowedBy(annotations[cfg.useType], product, cfg.typeSubstring))
    && (cfg.noUseType in annotations ==> !ExcludedBy(annotations[cfg.noUseType], product, cfg.typeSubstring))
  }

  lemma MatchesIff(cfg: DeviceConfig, rule: Rule, raw: string, text: string)
    ensures Matches(cfg, rule, raw, text) <==> Lists(raw, text, rule.name == "productName" && cfg.typeSubstring)
  {
    hide ValuesOf, IsValue, NamePart, ToLower;
    forall v ensures v in ValuesOf(raw) <==> IsValue(raw, v) { ValuesOfIff(raw, v); }
  }

  /** The selectors accept exactly the devices that the use annotations list and the nouse annotations do not. */
  lemma AnnotationsMeaning(cfg: DeviceConfig, annotations: map<string, string>, d: Device)
    requires AnnotationSelectors(cfg, annotations).Success?
    ensures Accepts(AnnotationSelectors(cfg, annotations).value, d) <==> AnnotationsAllow(cfg, annotations, d)
  {
    hide ValuesOf, Matches, Lists, Accepts, AnnotationSelectors;
    AcceptsIff(cfg, annotations, d);
    forall rule: Rule, raw: string, text: string
      ensures Matches(cfg, rule, raw, text) <==> Lists(raw, text, rule.name == "productName" && cfg.typeSubstring)
    {
      MatchesIff(cfg, rule, raw, text);
    }
    assert Rules(cfg)[0] == Rule(cfg.useUuid, "uuid", false) && Rules(cfg)[1] == Rule(cfg.noUseUuid, "uuid", true);
    assert Rules(cfg)[2] == Rule(cfg.useType, "productName", false);
    assert Rules(cfg)[3] == Rule(cfg.noUseType, "productName", true);
  }

  /** They fail exactly if one of the four annotations is there without any value. */
  lemma UnusableIff(cfg: DeviceConfig, annotations: map<string, string>)
    ensures AnnotationSelectors(cfg, annotations).Failure?
            <==> exists name | name in [cfg.useUuid, cfg.noUseUuid, cfg.useType, cfg.noUseType] ::
              name in annotations && forall v :: !IsValue(annotations[name], v)
  {
    hide ValuesOf, IsValue, AnnotationSelectors;
    RejectedIff(cfg, annotations);
    forall name | name in annotations
      ensures ValuesOf(annotations[name]) != [] <==> exists v :: IsValue(annotations[name], v)
    {
      UsableIff(annotations[name]);
    }
    var names := [cfg.useUuid, cfg.noUseUuid, cfg.useType, cfg.noUseType];
    assert forall k | 0 <= k < 4 :: Rules(cfg)[k].annotation == names[k];
  }

  /******* Values that normalise to nothing *******/

  /** The intended reading: a value that normalises to nothing names nothing. */
  predicate Names(cfg: DeviceConfig, rule: Rule, raw: string, text: string) {
    exists v | v in ValuesOf(raw) ::
      if Substring(cfg, rule) then NamePart(v) != [] && Contains(ToLower(text), NamePart(v)) else text == v
  }

  /**
   The selector reads a substring list as intended exactly when no value is made of parentheses only;
   such a value is part of every product name.
   */
  lemma IntendedIff(cfg: DeviceConfig, rule: Rule, raw: string)
    ensures (forall text: string :: Matches(cfg, rule, raw, text) == Names(cfg, rule, raw, text))
            <==> !Substring(cfg, rule) || forall v | v in ValuesOf(raw) :: !OnlyParentheses(v)
  {
    hide ValuesOf, NamePart;
    forall v | v in ValuesOf(raw) ensures NamePart(v) == [] <==> OnlyParentheses(v) { NamePartEmptyIff(v); }
    if Substring(cfg, rule) {
      if v :| v in ValuesOf(raw) && OnlyParentheses(v) {
        EmptyTextContains(NamePart(v));
        assert Matches(cfg, rule, raw, "");
        forall w | w in ValuesOf(raw) ensures NamePart(w) == [] || !Contains(ToLower(""), NamePart(w)) {
          EmptyTextContains(NamePart(w));
        }
        assert !Names(cfg, rule, raw, "");
      }
    }
  }

  lemma EmptyTextContains(part: string)
    ensures Contains(ToLower(""), part) <==> part == []
  {
    assert ToLower("") == [];
    assert part == [] ==> part <= ToLower("")[0..];
  }

  /** "()" is accepted as a usable value, and then every string product name matches it. */
  lemma ParenthesesMatchEverything(cfg: DeviceConfig, text: string)
    requires cfg.typeSubstring
    ensures ValuesOf("()") == ["()"]
    ensures Matches(cfg, Rules(cfg)[2], "()", text) && !Names(cfg, Rules(cfg)[2], "()", text)
  {
    hide ValuesOf, NamePart, ToLower;
    ParenthesesKept();
    assert "()" in ["()"];
    assert OnlyParentheses("()");
    NamePartEmptyIff("()");
    assert NamePart("()") <= ToLower(text)[0..];
  }
}
