/**
 * Rune attenuation and checking: the predefined policies and the restrictions
 * they generate, their display tags, carving a narrower rune from an existing
 * one, and the call context that resolves the fields alternatives name.
 */
module Runes {
  import opened Results
  import opened RuneAuth

  // ---------------------------------------------------------------------------
  // Policies

  /** `DefRules`: read-only access, the `pay` method, or the disjunction of sub-policies. */
  datatype DefRule = ReadOnly | Pay | Add(rules: seq<DefRule>)

  /**
   * `alternative(field, cond, value)`: always case-sensitive, so the encoding
   * can carry it exactly when neither field nor value holds a separator.
   */
  function MakeAlternative(field: string, condition: Condition, value: string): (alt: Alternative)
    ensures alt.field == field && alt.condition == condition && alt.value == value && !alt.caseInsensitive
    ensures Encodable(alt) <==> Free(field, {'=', '^', '!', '|', '&'}) && Free(value, {'|', '&'})
  {
    Alternative(field, condition, value, false)
  }

  /** `method^Get|method^List`. */
  function ReadOnlyRestriction(): Restriction {
    NewRestriction([MakeAlternative("method", BeginsWith, "Get"), MakeAlternative("method", BeginsWith, "List")]).value
  }

  /** `method=pay`. */
  function PayRestriction(): Restriction {
    NewRestriction([MakeAlternative("method", Equal, "pay")]).value
  }

  lemma MethodEncodable(value: string, condition: Condition)
    requires value == "Get" || value == "List" || value == "pay"
    ensures Encodable(MakeAlternative("method", condition, value))
  {
    var f := "method";
    assert f[0] == 'm' && f[1] == 'e' && f[2] == 't' && f[3] == 'h' && f[4] == 'o' && f[5] == 'd';
  }

  /** The alternatives of each restriction, in order (`flat_map(|r| r.alternatives)`). */
  function AlternativesOf(rs: seq<Restriction>): seq<Alternative>
    decreases |rs|
  {
    if rs == [] then [] else rs[0].alternatives + AlternativesOf(rs[1..])
  }

  /** A policy whose restrictions can be built: every `Add` has at least one sub-policy. */
  predicate WellFormed(rule: DefRule)
    decreases rule
  {
    match rule
    case ReadOnly => true
    case Pay => true
    case Add(rules) => |rules| > 0 && forall i :: 0 <= i < |rules| ==> WellFormed(rules[i])
  }

  /**
   * `DefRules::generate`: one restriction per policy. `Add` builds a single
   * restriction from the alternatives of all its sub-policies.
   */
  function Generated(rule: DefRule): (r: Result<seq<Restriction>, RuneError>)
    ensures r.Ok? ==> |r.value| == 1 && EncodableRestriction(r.value[0])
    decreases rule
  {
    match rule
    case ReadOnly =>
      MethodEncodable("Get", BeginsWith);
      MethodEncodable("List", BeginsWith);
      Ok([ReadOnlyRestriction()])
    case Pay =>
      MethodEncodable("pay", Equal);
      Ok([PayRestriction()])
    case Add(rules) =>
      var alts :- AddAlternatives(rules);
      var r :- NewRestriction(alts);
      Ok([r])
  }

  /** The `try_fold` of `Add`: append each sub-policy's alternatives in order; the first error wins. */
  function AddAlternatives(rules: seq<DefRule>): (r: Result<seq<Alternative>, RuneError>)
    ensures r.Ok? ==> forall i :: 0 <= i < |r.value| ==> Encodable(r.value[i])
    decreases rules
  {
    if rules == [] then Ok([])
    else
      var acc :- AddAlternatives(rules[..|rules| - 1]);
      var rs :- Generated(rules[|rules| - 1]);
      assert AlternativesOf(rs) == rs[0].alternatives;
      Ok(acc + AlternativesOf(rs))
  }

  /** The `try_fold` of `carve`: every policy's restrictions in policy order; the first error wins. */
  function GeneratedAll(policies: seq<DefRule>): Result<seq<Restriction>, RuneError>
    decreases |policies|
  {
    if policies == [] then Ok([])
    else
      var acc :- GeneratedAll(policies[..|policies| - 1]);
      var rs :- Generated(policies[|policies| - 1]);
      Ok(acc + rs)
  }

  /** The rune `carve` encodes: `origin` with every generated restriction added in order. */
  function Carved(origin: Rune, policies: seq<DefRule>): Result<Rune, RuneError> {
    var rs :- GeneratedAll(policies);
    Ok(AddRestrictions(origin, rs))
  }

  // ---------------------------------------------------------------------------
  // What generation produces

  lemma {:induction false} GeneratedOkIff(rule: DefRule)
    ensures Generated(rule).Ok? <==> WellFormed(rule)
    decreases rule, 1
  {
    match rule
    case ReadOnly =>
    case Pay =>
    case Add(rules) =>
      AddAlternativesOkIff(rules);
  }

  /** The alternatives come out exactly when every sub-policy is well formed; they are empty only for no sub-policies. */
  lemma {:induction false} AddAlternativesOkIff(rules: seq<DefRule>)
    ensures AddAlternatives(rules).Ok? <==> forall i :: 0 <= i < |rules| ==> WellFormed(rules[i])
    ensures AddAlternatives(rules).Ok? ==> (|AddAlternatives(rules).value| > 0 <==> |rules| > 0)
    decreases rules, 0
  {
    if rules != [] {
      var n := |rules|;
      var init := rules[..n - 1];
      AddAlternativesOkIff(init);
      GeneratedOkIff(rules[n - 1]);
      assert forall i :: 0 <= i < n - 1 ==> init[i] == rules[i];
      if AddAlternatives(rules).Ok? {
        var rs := Generated(rules[n - 1]).value;
        assert AlternativesOf(rs) == rs[0].alternatives;
      }
    }
  }

  /** An error in some prefix of the sub-policies is the error of the whole `Add`. */
  lemma {:induction false} AddAlternativesErrorSticks(rules: seq<DefRule>, k: nat)
    requires k <= |rules|
    requires AddAlternatives(rules[..k]).Err?
    ensures AddAlternatives(rules) == AddAlternatives(rules[..k])
    decreases |rules| - k
  {
    if k < |rules| {
      assert rules[..k + 1][..k] == rules[..k];
      AddAlternativesErrorSticks(rules, k + 1);
    } else {
      assert rules[..k] == rules;
    }
  }

  lemma {:induction false} GeneratedAllErrorSticks(policies: seq<DefRule>, k: nat)
    requires k <= |policies|
    requires GeneratedAll(policies[..k]).Err?
    ensures GeneratedAll(policies) == GeneratedAll(policies[..k])
    decreases |policies| - k
  {
    if k < |policies| {
      assert policies[..k + 1][..k] == policies[..k];
      GeneratedAllErrorSticks(policies, k + 1);
    } else {
      assert policies[..k] == policies;
    }
  }

  /** An alternative of an `Add` comes from one of its sub-policies, and every sub-policy's alternatives are in it. */
  lemma {:induction false} AddAlternativesMembers(rules: seq<DefRule>)
    requires AddAlternatives(rules).Ok?
    ensures forall i :: 0 <= i < |rules| ==> Generated(rules[i]).Ok?
    ensures forall a :: a in AddAlternatives(rules).value <==>
      exists i :: 0 <= i < |rules| && a in Generated(rules[i]).value[0].alternatives
    decreases |rules|
  {
    if rules != [] {
      var n := |rules|;
      var init := rules[..n - 1];
      AddAlternativesMembers(init);
      assert forall i :: 0 <= i < n - 1 ==> init[i] == rules[i];
      var rs := Generated(rules[n - 1]).value;
      assert AlternativesOf(rs) == rs[0].alternatives;
      assert AddAlternatives(rules).value == AddAlternatives(init).value + rs[0].alternatives;
      forall a | a in AddAlternatives(rules).value
        ensures exists i :: 0 <= i < |rules| && a in Generated(rules[i]).value[0].alternatives
      {
        if a in AddAlternatives(init).value {
          var i :| 0 <= i < |init| && a in Generated(init[i]).value[0].alternatives;
          assert init[i] == rules[i];
        } else {
          assert a in Generated(rules[n - 1]).value[0].alternatives;
        }
      }
      forall a, i | 0 <= i < |rules| && a in Generated(rules[i]).value[0].alternatives
        ensures a in AddAlternatives(rules).value
      {
        if i < n - 1 {
          assert init[i] == rules[i];
        }
      }
    }
  }

  /** `Add` over the concatenation of two policy lists is `Add` over the two lists' `Add`s: flattening is in order and nests. */
  lemma {:induction false} AddAlternativesAppend(a: seq<DefRule>, b: seq<DefRule>)
    ensures AddAlternatives(a + b) ==
      match AddAlternatives(a)
      case Err(e) => Err(e)
      case Ok(x) => (match AddAlternatives(b) case Err(e) => Err(e) case Ok(y) => Ok(x + y))
    decreases |b|
  {
    if b == [] {
      assert a + b == a;
      if AddAlternatives(a).Ok? {
        assert AddAlternatives(a).value + [] == AddAlternatives(a).value;
      }
    } else {
      var n := |b|;
      var init := b[..n - 1];
      var last := b[n - 1];
      assert (a + b)[..|a + b| - 1] == a + init;
      assert (a + b)[|a + b| - 1] == last;
      AddAlternativesAppend(a, init);
      var whole := AddAlternatives(a + b);
      assert whole == match AddAlternatives(a + init)
        case Err(e) => Err(e)
        case Ok(acc) => (match Generated(last) case Err(e) => Err(e) case Ok(rs) => Ok(acc + AlternativesOf(rs)));
      assert AddAlternatives(b) == match AddAlternatives(init)
        case Err(e) => Err(e)
        case Ok(acc) => (match Generated(last) case Err(e) => Err(e) case Ok(rs) => Ok(acc + AlternativesOf(rs)));
      if AddAlternatives(a).Ok? && AddAlternatives(init).Ok? && Generated(last).Ok? {
        var x, y, z := AddAlternatives(a).value, AddAlternatives(init).value, AlternativesOf(Generated(last).value);
        assert (x + y) + z == x + (y + z);
      }
    }
  }

  /** Nesting: `Add([Add(a), Add(b)])` generates what `Add(a + b)` generates, errors included. */
  lemma AddNests(a: seq<DefRule>, b: seq<DefRule>)
    requires a != [] && b != []
    ensures Generated(Add([Add(a), Add(b)])) == Generated(Add(a + b))
  {
    AddAlternativesAppend(a, b);
    AddAlternativesOkIff(a);
    AddAlternativesOkIff(b);
    var outer := [Add(a), Add(b)];
    assert outer[..1] == [Add(a)] && outer[1] == Add(b);
    AddAlternativesSingle(Add(a));
    assert AddAlternatives(outer) == match AddAlternatives([Add(a)])
      case Err(e) => Err(e)
      case Ok(acc) => (match Generated(Add(b)) case Err(e) => Err(e) case Ok(rs) => Ok(acc + AlternativesOf(rs)));
    if AddAlternatives(a).Ok? {
      var x := AddAlternatives(a).value;
      AlternativesOfSingle(Restriction(x));
      assert AddAlternatives([Add(a)]) == Ok(x);
      if AddAlternatives(b).Ok? {
        var y := AddAlternatives(b).value;
        AlternativesOfSingle(Restriction(y));
        assert Generated(Add(b)) == Ok([Restriction(y)]);
        assert AddAlternatives(outer) == Ok(x + y);
        assert AddAlternatives(a + b) == Ok(x + y);
      }
    }
  }

  lemma AlternativesOfSingle(r: Restriction)
    ensures AlternativesOf([r]) == r.alternatives
  {
    assert [r][1..] == [];
    assert r.alternatives + [] == r.alternatives;
  }

  lemma AddAlternativesSingle(rule: DefRule)
    ensures AddAlternatives([rule]) == match Generated(rule)
      case Err(e) => Err(e)
      case Ok(rs) => Ok(AlternativesOf(rs))
  {
    assert [rule][..0] == [];
    if Generated(rule).Ok? {
      assert [] + AlternativesOf(Generated(rule).value) == AlternativesOf(Generated(rule).value);
    }
  }

  /** Every listed policy generated its restriction, and they follow in policy order. */
  lemma {:induction false} GeneratedAllShape(policies: seq<DefRule>)
    requires GeneratedAll(policies).Ok?
    ensures forall i :: 0 <= i < |policies| ==> Generated(policies[i]).Ok?
    ensures |GeneratedAll(policies).value| == |policies|
    ensures forall i :: 0 <= i < |policies| ==> GeneratedAll(policies).value[i] == Generated(policies[i]).value[0]
    decreases |policies|
  {
    if policies != [] {
      var n := |policies|;
      var init := policies[..n - 1];
      GeneratedAllShape(init);
      assert forall i :: 0 <= i < n - 1 ==> init[i] == policies[i];
      var acc := GeneratedAll(init).value;
      var last := Generated(policies[n - 1]).value;
      assert GeneratedAll(policies).value == acc + last;
      assert forall i :: 0 <= i < n - 1 ==> (acc + last)[i] == acc[i];
      assert (acc + last)[n - 1] == last[0];
    }
  }

  lemma {:induction false} GeneratedAllOkIff(policies: seq<DefRule>)
    ensures GeneratedAll(policies).Ok? <==> forall i :: 0 <= i < |policies| ==> Generated(policies[i]).Ok?
    decreases |policies|
  {
    if policies != [] {
      var n := |policies|;
      var init := policies[..n - 1];
      GeneratedAllOkIff(init);
      assert forall i :: 0 <= i < n - 1 ==> init[i] == policies[i];
    }
  }

  /** A policy list whose generation fails holds a first failing policy, carrying that error. */
  lemma {:induction false} GeneratedAllErrorIsFirst(policies: seq<DefRule>, e: RuneError)
    requires GeneratedAll(policies) == Err(e)
    ensures exists i :: (0 <= i < |policies| && Generated(policies[i]) == Err(e) &&
      forall j :: 0 <= j < i ==> Generated(policies[j]).Ok?)
    decreases |policies|
  {
    var n := |policies|;
    var init := policies[..n - 1];
    assert forall i :: 0 <= i < n - 1 ==> init[i] == policies[i];
    if GeneratedAll(init).Err? {
      GeneratedAllErrorIsFirst(init, e);
      var i :| 0 <= i < |init| && Generated(init[i]) == Err(e) && forall j :: 0 <= j < i ==> Generated(init[j]).Ok?;
      assert Generated(policies[i]) == Err(e);
    } else {
      GeneratedAllOkIff(init);
      assert Generated(policies[n - 1]) == Err(e);
    }
  }

  /** The first failing policy's error is the error of the whole list. */
  lemma FirstErrorIsGeneratedAllError(policies: seq<DefRule>, i: nat)
    requires i < |policies| && Generated(policies[i]).Err?
    requires forall j :: 0 <= j < i ==> Generated(policies[j]).Ok?
    ensures GeneratedAll(policies) == Err(Generated(policies[i]).error)
  {
    var pre := policies[..i];
    assert forall j :: 0 <= j < i ==> Generated(pre[j]).Ok? by {
      forall j | 0 <= j < i ensures Generated(pre[j]).Ok? {
        assert pre[j] == policies[j];
      }
    }
    GeneratedAllOkIff(pre);
    var upTo := policies[..i + 1];
    assert upTo[..|upTo| - 1] == pre;
    assert upTo[|upTo| - 1] == policies[i];
    assert GeneratedAll(upTo) == Err(Generated(policies[i]).error);
    GeneratedAllErrorSticks(policies, i + 1);
  }

  // ---------------------------------------------------------------------------
  // The imperative operations

  /**
   * `DefRules::generate`. For `Add`, the alternatives are accumulated in a
   * mutable list, one sub-policy at a time, stopping at the first error.
   */
  method Generate(rule: DefRule) returns (res: Result<seq<Restriction>, RuneError>)
    ensures res == Generated(rule)
    decreases rule
  {
    match rule
    case ReadOnly =>
      res := Ok([ReadOnlyRestriction()]);
    case Pay =>
      res := Ok([PayRestriction()]);
    case Add(rules) =>
      var acc: seq<Alternative> := [];
      var i := 0;
      while i < |rules|
        invariant 0 <= i <= |rules|
        invariant AddAlternatives(rules[..i]) == Ok(acc)
      {
        var sub := Generate(rules[i]);
        assert rules[..i + 1][..i] == rules[..i];
        if sub.Err? {
          AddAlternativesErrorSticks(rules, i + 1);
          return Err(sub.error);
        }
        acc := acc + AlternativesOf(sub.value);
        i := i + 1;
      }
      assert rules[..i] == rules;
      var r := NewRestriction(acc);
      if r.Err? {
        return Err(r.error);
      }
      res := Ok([r.value]);
  }

  /**
   * `RuneFactory::carve`: generate the restrictions of every policy, then add
   * them one by one to a copy of `origin` and encode the copy. The origin, a
   * value, is not changed.
   */
  method Carve(origin: Rune, append: seq<DefRule>) returns (res: Result<EncodedRune, RuneError>)
    ensures Carved(origin, append).Err? ==> res == Err(Carved(origin, append).error)
    ensures Carved(origin, append).Ok? ==> res == Ok(Encode(Carved(origin, append).value))
  {
    var restrictions: seq<Restriction> := [];
    var i := 0;
    while i < |append|
      invariant 0 <= i <= |append|
      invariant GeneratedAll(append[..i]) == Ok(restrictions)
    {
      var r := Generate(append[i]);
      assert append[..i + 1][..i] == append[..i];
      if r.Err? {
        GeneratedAllErrorSticks(append, i + 1);
        return Err(r.error);
      }
      restrictions := restrictions + r.value;
      i := i + 1;
    }
    assert append[..i] == append;
    var originc := origin;
    var k := 0;
    while k < |restrictions|
      invariant 0 <= k <= |restrictions|
      invariant originc == AddRestrictions(origin, restrictions[..k])
    {
      assert restrictions[..k + 1][..k] == restrictions[..k];
      originc := originc.AddRestriction(restrictions[k]);
      k := k + 1;
    }
    assert restrictions[..k] == restrictions;
    res := Ok(Encode(originc));
  }

  // ---------------------------------------------------------------------------
  // Display

  /** The `Display` tag of a policy. */
  function Display(rule: DefRule): string
    decreases rule, 1
  {
    match rule
    case ReadOnly => "readonly"
    case Pay => "pay"
    case Add(rules) => DisplayFold(rules)
  }

  /** The fold of `Add`'s `Display`: a tag is appended after `|` unless the text so far is empty. */
  function DisplayFold(rules: seq<DefRule>): string
    decreases rules, 0
  {
    if rules == [] then ""
    else
      var acc := DisplayFold(rules[..|rules| - 1]);
      var tag := Display(rules[|rules| - 1]);
      if acc == "" then tag else acc + "|" + tag
  }

  /** The sub-policies' tags, in order. */
  function Tags(rules: seq<DefRule>): (tags: seq<string>)
    ensures |tags| == |rules|
  {
    seq(|rules|, i requires 0 <= i < |rules| => Display(rules[i]))
  }

  lemma {:induction false} WellFormedDisplayNonEmpty(rule: DefRule)
    requires WellFormed(rule)
    ensures Display(rule) != ""
    decreases rule, 1
  {
    match rule
    case ReadOnly =>
    case Pay =>
    case Add(rules) =>
      DisplayFoldNonEmpty(rules);
  }

  lemma {:induction false} DisplayFoldNonEmpty(rules: seq<DefRule>)
    requires |rules| > 0 && forall i :: 0 <= i < |rules| ==> WellFormed(rules[i])
    ensures DisplayFold(rules) != ""
    decreases rules, 0
  {
    WellFormedDisplayNonEmpty(rules[|rules| - 1]);
  }

  /** With no empty tag among them, the fold is the tags joined by `|`, in order. */
  lemma {:induction false} DisplayFoldJoins(rules: seq<DefRule>)
    requires forall i :: 0 <= i < |rules| ==> Display(rules[i]) != ""
    ensures DisplayFold(rules) == Join('|', Tags(rules))
    decreases |rules|
  {
    if |rules| > 0 {
      var n := |rules|;
      var init := rules[..n - 1];
      assert forall i :: 0 <= i < n - 1 ==> init[i] == rules[i];
      DisplayFoldJoins(init);
      assert Tags(rules) == Tags(init) + [Display(rules[n - 1])];
      if n > 1 {
        JoinSnoc('|', Tags(init), Display(rules[n - 1]));
        JoinStartsWithFirst('|', Tags(init));
        assert Tags(init)[0] == Display(rules[0]);
      } else {
        assert init == [];
      }
    }
  }

  /** A well-formed `Add` displays as its sub-policies' tags joined by `|`, in order, with no leading separator. */
  lemma DisplayAddJoins(rules: seq<DefRule>)
    requires WellFormed(Add(rules))
    ensures Display(Add(rules)) == Join('|', Tags(rules))
  {
    forall i | 0 <= i < |rules| ensures Display(rules[i]) != "" {
      WellFormedDisplayNonEmpty(rules[i]);
    }
    DisplayFoldJoins(rules);
  }

  // ---------------------------------------------------------------------------
  // Call context and checking

  /** `Context`: the facts of one call. `time` is in whole seconds since the epoch and may be negative. */
  datatype Context = Context(methodName: string, pubkey: string, uniqueId: string, time: int)

  function Digit(d: nat): char
    requires d < 10
  {
    "0123456789"[d]
  }

  /** `n.to_string()`: the decimal rendering of a natural number. */
  function Decimal(n: nat): (s: string)
    ensures |s| > 0
    ensures forall i :: 0 <= i < |s| ==> '0' <= s[i] <= '9'
    ensures s[0] == '0' ==> n == 0
    decreases n
  {
    if n < 10 then [Digit(n)] else Decimal(n / 10) + [Digit(n % 10)]
  }

  /** The number a string of decimal digits denotes. */
  function DecimalValue(s: string): int
    decreases |s|
  {
    if s == [] then 0 else 10 * DecimalValue(s[..|s| - 1]) + (s[|s| - 1] as int - '0' as int)
  }

  lemma {:induction false} DecimalRoundTrip(n: nat)
    ensures DecimalValue(Decimal(n)) == n
    decreases n
  {
    if n >= 10 {
      DecimalRoundTrip(n / 10);
      var s := Decimal(n);
      assert s[..|s| - 1] == Decimal(n / 10);
    }
  }

  /**
   * The field lookup of `check_alternative`: the unique id for the empty field
   * name, the method, the public key, the time in decimal seconds (an error
   * before the epoch), and the empty string for any other field.
   */
  function ResolveField(ctx: Context, field: string): (r: Result<string, RuneError>)
    ensures field != "time" ==> r.Ok?
    ensures field == "" ==> r == Ok(ctx.uniqueId)
    ensures field == "method" ==> r == Ok(ctx.methodName)
    ensures field == "pubkey" ==> r == Ok(ctx.pubkey)
    ensures field == "time" ==> (r.Ok? <==> ctx.time >= 0)
    ensures field == "time" && r.Ok? ==> r.value == Decimal(ctx.time) && DecimalValue(r.value) == ctx.time
    ensures field !in {"", "method", "pubkey", "time"} ==> r == Ok("")
  {
    if field == "" then Ok(ctx.uniqueId)
    else if field == "method" then Ok(ctx.methodName)
    else if field == "pubkey" then Ok(ctx.pubkey)
    else if field == "time" then
      if ctx.time < 0 then Err(Unknown("Can not extract seconds from timestamp"))
      else DecimalRoundTrip(ctx.time); Ok(Decimal(ctx.time))
    else Ok("")
  }

  /** `Context::check_alternative`: resolve the field, then test the condition on the resolved value. */
  function CheckAlternative(ctx: Context, alt: Alternative): (r: Result<(), RuneError>)
    ensures r.Ok? <==> ResolveField(ctx, alt.field).Ok? && ConditionHolds(alt.condition, ResolveField(ctx, alt.field).value, alt.value)
    ensures ResolveField(ctx, alt.field).Err? ==> r == Err(ResolveField(ctx, alt.field).error)
  {
    var value :- ResolveField(ctx, alt.field);
    CheckValue(alt, value)
  }

  predicate Passes(ctx: Context, alt: Alternative) {
    CheckAlternative(ctx, alt).Ok?
  }

  /** A restriction is met when one of its alternatives passes. */
  predicate RestrictionMet(ctx: Context, r: Restriction) {
    exists a :: a in r.alternatives && Passes(ctx, a)
  }

  /** A rune is met when every one of its restrictions is. */
  predicate Met(rune: Rune, ctx: Context) {
    forall i :: 0 <= i < |rune.restrictions| ==> RestrictionMet(ctx, rune.restrictions[i])
  }

  /** The restriction-by-restriction check: success, or the first restriction that is not met. */
  function CheckRestrictions(ctx: Context, rs: seq<Restriction>): (r: Result<(), RuneError>)
    ensures r.Ok? <==> forall i :: 0 <= i < |rs| ==> RestrictionMet(ctx, rs[i])
    ensures r.Err? ==> exists i :: (0 <= i < |rs| && !RestrictionMet(ctx, rs[i]) &&
      r.error == RestrictionUnmet(EncodeRestriction(rs[i])) && forall j :: 0 <= j < i ==> RestrictionMet(ctx, rs[j]))
    decreases |rs|
  {
    if rs == [] then Ok(())
    else if !RestrictionMet(ctx, rs[0]) then Err(RestrictionUnmet(EncodeRestriction(rs[0])))
    else
      var rest := CheckRestrictions(ctx, rs[1..]);
      assert forall i :: 1 <= i < |rs| ==> rs[i] == rs[1..][i - 1];
      if rest.Err? then
        var k :| 0 <= k < |rs[1..]| && !RestrictionMet(ctx, rs[1..][k]) &&
          rest.error == RestrictionUnmet(EncodeRestriction(rs[1..][k])) && forall j :: 0 <= j < k ==> RestrictionMet(ctx, rs[1..][j]);
        assert forall j :: 0 <= j < k + 1 ==> RestrictionMet(ctx, rs[j]) by {
          forall j | 0 <= j < k + 1 ensures RestrictionMet(ctx, rs[j]) {
            if j > 0 {
              assert rs[j] == rs[1..][j - 1];
            }
          }
        }
        assert rs[k + 1] == rs[1..][k];
        rest
      else
        rest
  }

  /** `rune.are_restrictions_met(ctx)`. */
  function AreRestrictionsMet(rune: Rune, ctx: Context): (r: Result<(), RuneError>)
    ensures r.Ok? <==> Met(rune, ctx)
  {
    CheckRestrictions(ctx, rune.restrictions)
  }

  // ---------------------------------------------------------------------------
  // What carving promises

  /** The carved rune is the origin's restrictions followed by one restriction per policy, in policy order. */
  lemma CarvedShape(origin: Rune, policies: seq<DefRule>)
    requires Carved(origin, policies).Ok?
    ensures forall i :: 0 <= i < |policies| ==> Generated(policies[i]).Ok?
    ensures var c := Carved(origin, policies).value;
      && |c.restrictions| == |origin.restrictions| + |policies|
      && c.restrictions[..|origin.restrictions|] == origin.restrictions
      && (forall i :: 0 <= i < |policies| ==> c.restrictions[|origin.restrictions| + i] == Generated(policies[i]).value[0])
      && c.authcode == Chain(origin.authcode, c.restrictions[|origin.restrictions|..])
  {
    var rs := GeneratedAll(policies).value;
    GeneratedAllShape(policies);
    AddRestrictionsShape(origin, rs);
    var c := Carved(origin, policies).value;
    assert c.restrictions == origin.restrictions + rs;
    assert c.restrictions[|origin.restrictions|..] == rs;
  }

  /** `carve` succeeds exactly when every policy is well formed. */
  lemma CarvedOkIff(origin: Rune, policies: seq<DefRule>)
    ensures Carved(origin, policies).Ok? <==> forall i :: 0 <= i < |policies| ==> WellFormed(policies[i])
  {
    GeneratedAllOkIff(policies);
    forall i | 0 <= i < |policies| ensures Generated(policies[i]).Ok? <==> WellFormed(policies[i]) {
      GeneratedOkIff(policies[i]);
    }
  }

  /** A failing `carve` returns the error of the first policy that fails and no rune. */
  lemma CarvedFirstError(origin: Rune, policies: seq<DefRule>, e: RuneError)
    ensures Carved(origin, policies) == Err(e) <==>
      exists i :: 0 <= i < |policies| && Generated(policies[i]) == Err(e) &&
        forall j :: 0 <= j < i ==> Generated(policies[j]).Ok?
  {
    if Carved(origin, policies) == Err(e) {
      GeneratedAllErrorIsFirst(policies, e);
    }
    if exists i :: 0 <= i < |policies| && Generated(policies[i]) == Err(e) &&
        forall j :: 0 <= j < i ==> Generated(policies[j]).Ok? {
      var i :| 0 <= i < |policies| && Generated(policies[i]) == Err(e) &&
        forall j :: 0 <= j < i ==> Generated(policies[j]).Ok?;
      FirstErrorIsGeneratedAllError(policies, i);
    }
  }

  /**
   * Attenuation: a context meets the carved rune exactly when it meets the
   * origin and every policy's restriction. So it never widens authority.
   */
  lemma CarveNarrows(origin: Rune, policies: seq<DefRule>, ctx: Context)
    requires Carved(origin, policies).Ok?
    ensures forall i :: 0 <= i < |policies| ==> Generated(policies[i]).Ok?
    ensures Met(Carved(origin, policies).value, ctx) <==>
      Met(origin, ctx) && forall i :: 0 <= i < |policies| ==> RestrictionMet(ctx, Generated(policies[i]).value[0])
    ensures Met(Carved(origin, policies).value, ctx) ==> Met(origin, ctx)
  {
    CarvedShape(origin, policies);
    var c := Carved(origin, policies).value;
    var n := |origin.restrictions|;
    assert forall i :: 0 <= i < n ==> c.restrictions[i] == origin.restrictions[i];
    if Met(c, ctx) {
      forall i | 0 <= i < n ensures RestrictionMet(ctx, origin.restrictions[i]) {
        assert RestrictionMet(ctx, c.restrictions[i]);
      }
      forall i | 0 <= i < |policies| ensures RestrictionMet(ctx, Generated(policies[i]).value[0]) {
        assert RestrictionMet(ctx, c.restrictions[n + i]);
      }
    }
    if Met(origin, ctx) && forall i :: 0 <= i < |policies| ==> RestrictionMet(ctx, Generated(policies[i]).value[0]) {
      forall k | 0 <= k < |c.restrictions| ensures RestrictionMet(ctx, c.restrictions[k]) {
        if k < n {
          assert RestrictionMet(ctx, origin.restrictions[k]);
        } else {
          assert c.restrictions[k] == Generated(policies[k - n]).value[0];
        }
      }
    }
  }

  /** A carved rune keeps the lineage of every master that authorized its origin. */
  lemma CarveKeepsLineage(master: Rune, origin: Rune, policies: seq<DefRule>)
    requires IsAuthorized(master, origin)
    requires Carved(origin, policies).Ok?
    ensures IsAuthorized(master, Carved(origin, policies).value)
  {
    AuthorizedAfterAdding(master, origin, GeneratedAll(policies).value);
  }

  /** The carved restriction text is the origin's text, then `&`, then the new restrictions' text. */
  lemma CarvedText(origin: Rune, policies: seq<DefRule>)
    requires Carved(origin, policies).Ok?
    ensures var text := Encode(Carved(origin, policies).value).restrictions;
      var added := EncodeRestrictionList(GeneratedAll(policies).value);
      text == if origin.restrictions == [] then added
              else if policies == [] then EncodeRestrictionList(origin.restrictions)
              else EncodeRestrictionList(origin.restrictions) + "&" + added
  {
    var rs := GeneratedAll(policies).value;
    GeneratedAllShape(policies);
    AddRestrictionsShape(origin, rs);
    EncodeRestrictionListAppend(origin.restrictions, rs);
  }

  /** A carved rune decodes back to itself when its origin's restrictions are encodable. */
  lemma CarvedDecodes(origin: Rune, policies: seq<DefRule>)
    requires EncodableRune(origin)
    requires Carved(origin, policies).Ok?
    ensures Decode(Encode(Carved(origin, policies).value)) == Carved(origin, policies)
  {
    CarvedShape(origin, policies);
    var c := Carved(origin, policies).value;
    var n := |origin.restrictions|;
    forall i | 0 <= i < |c.restrictions| ensures EncodableRestriction(c.restrictions[i]) {
      if i < n {
        assert c.restrictions[i] == origin.restrictions[i];
      } else {
        assert c.restrictions[i] == Generated(policies[i - n]).value[0];
      }
    }
    DecodeEncode(c);
  }

  // ---------------------------------------------------------------------------
  // What the policies allow

  /** `ReadOnly` lets a call through exactly when its method begins with `Get` or `List`. */
  lemma ReadOnlyAllows(ctx: Context)
    ensures Generated(ReadOnly) == Ok([ReadOnlyRestriction()])
    ensures RestrictionMet(ctx, ReadOnlyRestriction()) <==> "Get" <= ctx.methodName || "List" <= ctx.methodName
  {
    var alts := ReadOnlyRestriction().alternatives;
    assert alts[0] in alts && alts[1] in alts;
  }

  /** `Pay` lets a call through exactly when its method is `pay`. */
  lemma PayAllows(ctx: Context)
    ensures Generated(Pay) == Ok([PayRestriction()])
    ensures RestrictionMet(ctx, PayRestriction()) <==> ctx.methodName == "pay"
  {
    var alts := PayRestriction().alternatives;
    assert alts[0] in alts;
  }

  /** `Add` is a disjunction: its one restriction is met exactly when some sub-policy's restriction is. */
  lemma AddIsDisjunction(rules: seq<DefRule>, ctx: Context)
    requires Generated(Add(rules)).Ok?
    ensures forall i :: 0 <= i < |rules| ==> Generated(rules[i]).Ok?
    ensures RestrictionMet(ctx, Generated(Add(rules)).value[0]) <==>
      exists i :: 0 <= i < |rules| && RestrictionMet(ctx, Generated(rules[i]).value[0])
  {
    AddAlternativesMembers(rules);
    var r := Generated(Add(rules)).value[0];
    assert r.alternatives == AddAlternatives(rules).value;
    if RestrictionMet(ctx, r) {
      var a :| a in r.alternatives && Passes(ctx, a);
      var i :| 0 <= i < |rules| && a in Generated(rules[i]).value[0].alternatives;
      assert RestrictionMet(ctx, Generated(rules[i]).value[0]);
    }
    if exists i :: 0 <= i < |rules| && RestrictionMet(ctx, Generated(rules[i]).value[0]) {
      var i :| 0 <= i < |rules| && RestrictionMet(ctx, Generated(rules[i]).value[0]);
      var a :| a in Generated(rules[i]).value[0].alternatives && Passes(ctx, a);
      assert a in r.alternatives;
    }
  }

  /** An alternative on a field the context does not know sees the empty string, so `Missing` on it always passes. */
  lemma MissingOnUnknownFieldPasses(ctx: Context, alt: Alternative)
    requires alt.field !in {"", "method", "pubkey", "time"}
    requires alt.condition == Missing
    ensures Passes(ctx, alt)
  {
  }

  /** A rune of one single-alternative restriction is met exactly when that alternative passes. */
  lemma SingleAlternativeRune(code: AuthCode, alt: Alternative, ctx: Context)
    ensures Met(NewRune(code, [Restriction([alt])]), ctx) <==> Passes(ctx, alt)
  {
    AddRestrictionsShape(Rune(code, []), [Restriction([alt])]);
    assert [] + [Restriction([alt])] == [Restriction([alt])];
    assert alt in Restriction([alt]).alternatives;
  }
}
