/**
 * The rune library that the authorization core builds on. The core uses it
 * through `Alternative`, `Condition`, `Restriction`, `Rune` and the condition
 * checker; their definitions are not part of the repository, so this module
 * gives them the meaning the repository's tests rely on:
 *  - a condition is `Equal` (string equality), `BeginsWith` (prefix) or
 *    `Missing` (the resolved value is empty);
 *  - a restriction is a non-empty list of alternatives, met when one of them
 *    passes;
 *  - a rune is an authentication code plus a list of restrictions; adding a
 *    restriction appends it and extends the code;
 *  - the textual encoding renders an alternative as field, condition symbol,
 *    value; joins alternatives with `|` and restrictions with `&`.
 * The authentication code is kept symbolic: `Extended(code, text)` stands for
 * the keyed hash of `code` continued over the restriction text.
 */
module RuneAuth {
  import opened Results

  datatype Condition = Equal | BeginsWith | Missing

  /** One atomic test on one field of the call context. */
  datatype Alternative = Alternative(field: string, condition: Condition, value: string, caseInsensitive: bool)

  /** A disjunction of alternatives. */
  datatype Restriction = Restriction(alternatives: seq<Alternative>) {
    /** `Restriction::new` refuses an empty list of alternatives. */
    predicate Valid() {
      |alternatives| > 0
    }
  }

  datatype RuneError =
    | EmptyRestriction
    | ConditionFailed(field: string, actual: string)
    | RestrictionUnmet(restriction: string)
    | MalformedAlternative(text: string)
    | Unknown(message: string)

  /** What a condition says about the value the context resolved for a field. */
  predicate ConditionHolds(condition: Condition, actual: string, expected: string) {
    match condition
    case Equal => actual == expected
    case BeginsWith => expected <= actual
    case Missing => actual == ""
  }

  /** `ConditionChecker { value }.check_alternative(alt)`: test one resolved value. */
  function CheckValue(alt: Alternative, actual: string): (r: Result<(), RuneError>)
    ensures r.Ok? <==> ConditionHolds(alt.condition, actual, alt.value)
    ensures r.Err? ==> r.error == ConditionFailed(alt.field, actual)
  {
    if ConditionHolds(alt.condition, actual, alt.value) then Ok(()) else Err(ConditionFailed(alt.field, actual))
  }

  /** `Restriction::new`: fails on an empty list of alternatives. */
  function NewRestriction(alternatives: seq<Alternative>): (r: Result<Restriction, RuneError>)
    ensures r.Ok? <==> |alternatives| > 0
    ensures r.Ok? ==> r.value.Valid() && r.value.alternatives == alternatives
    ensures r.Err? ==> r.error == EmptyRestriction
  {
    if |alternatives| == 0 then Err(EmptyRestriction) else Ok(Restriction(alternatives))
  }

  // ---------------------------------------------------------------------------
  // Textual encoding of restrictions

  /** The parts separated by `sep`, with no leading or trailing separator. */
  function Join(sep: char, parts: seq<string>): string
    decreases |parts|
  {
    if |parts| == 0 then ""
    else if |parts| == 1 then parts[0]
    else parts[0] + [sep] + Join(sep, parts[1..])
  }

  lemma {:induction false} JoinSnoc(sep: char, parts: seq<string>, last: string)
    requires |parts| > 0
    ensures Join(sep, parts + [last]) == Join(sep, parts) + [sep] + last
    decreases |parts|
  {
    if |parts| == 1 {
      assert (parts + [last])[1..] == [last];
    } else {
      assert (parts + [last])[1..] == parts[1..] + [last];
      JoinSnoc(sep, parts[1..], last);
    }
  }

  /** Joining two non-empty lists is joining each and putting one separator between. */
  lemma {:induction false} JoinAppend(sep: char, a: seq<string>, b: seq<string>)
    requires |a| > 0 && |b| > 0
    ensures Join(sep, a + b) == Join(sep, a) + [sep] + Join(sep, b)
    decreases |a|
  {
    if |a| == 1 {
      assert (a + b)[1..] == b;
    } else {
      assert (a + b)[1..] == a[1..] + b;
      JoinAppend(sep, a[1..], b);
    }
  }

  /** A joined list begins with its first part. */
  lemma JoinStartsWithFirst(sep: char, parts: seq<string>)
    requires |parts| > 0
    ensures parts[0] <= Join(sep, parts)
  {
    if |parts| > 1 {
      assert Join(sep, parts) == parts[0] + ([sep] + Join(sep, parts[1..]));
    }
  }

  /** `s` contains none of the characters `cs`. */
  predicate Free(s: string, cs: set<char>) {
    forall i :: 0 <= i < |s| ==> s[i] !in cs
  }

  lemma {:induction false} JoinFree(sep: char, parts: seq<string>, cs: set<char>)
    requires sep !in cs
    requires forall i :: 0 <= i < |parts| ==> Free(parts[i], cs)
    ensures Free(Join(sep, parts), cs)
    decreases |parts|
  {
    if |parts| > 1 {
      JoinFree(sep, parts[1..], cs);
      var tail := Join(sep, parts[1..]);
      assert Join(sep, parts) == parts[0] + [sep] + tail;
      assert Free(parts[0], cs);
      forall i | 0 <= i < |Join(sep, parts)| ensures Join(sep, parts)[i] !in cs {
        if i < |parts[0]| {
        } else if i == |parts[0]| {
        } else {
          assert Join(sep, parts)[i] == tail[i - |parts[0]| - 1];
        }
      }
    }
  }

  function Symbol(condition: Condition): char {
    match condition
    case Equal => '='
    case BeginsWith => '^'
    case Missing => '!'
  }

  predicate IsSymbol(c: char) {
    c == '=' || c == '^' || c == '!'
  }

  function ConditionOf(c: char): (condition: Condition)
    requires IsSymbol(c)
    ensures Symbol(condition) == c
  {
    if c == '=' then Equal else if c == '^' then BeginsWith else Missing
  }

  /** `field<symbol>value`, as in `method^Get` or `pubkey!`. */
  function EncodeAlternative(alt: Alternative): string {
    alt.field + [Symbol(alt.condition)] + alt.value
  }

  function EncodeAlternatives(alts: seq<Alternative>): (encs: seq<string>)
    ensures |encs| == |alts|
  {
    seq(|alts|, i requires 0 <= i < |alts| => EncodeAlternative(alts[i]))
  }

  function EncodeRestriction(r: Restriction): string {
    Join('|', EncodeAlternatives(r.alternatives))
  }

  function EncodeRestrictions(rs: seq<Restriction>): (encs: seq<string>)
    ensures |encs| == |rs|
  {
    seq(|rs|, i requires 0 <= i < |rs| => EncodeRestriction(rs[i]))
  }

  /** The text of a restriction whose alternatives are those of two restrictions is their texts joined by `|`. */
  lemma RestrictionTextAppend(a: seq<Alternative>, b: seq<Alternative>)
    requires |a| > 0 && |b| > 0
    ensures EncodeRestriction(Restriction(a + b)) ==
      EncodeRestriction(Restriction(a)) + "|" + EncodeRestriction(Restriction(b))
  {
    assert EncodeAlternatives(a + b) == EncodeAlternatives(a) + EncodeAlternatives(b);
    JoinAppend('|', EncodeAlternatives(a), EncodeAlternatives(b));
  }

  function EncodeRestrictionList(rs: seq<Restriction>): string {
    Join('&', EncodeRestrictions(rs))
  }

  /** Appending restrictions only appends text: the old encoding is kept, followed by `&` and the new part. */
  lemma EncodeRestrictionListAppend(a: seq<Restriction>, b: seq<Restriction>)
    ensures EncodeRestrictionList(a + b) ==
      if a == [] then EncodeRestrictionList(b)
      else if b == [] then EncodeRestrictionList(a)
      else EncodeRestrictionList(a) + "&" + EncodeRestrictionList(b)
  {
    if a == [] {
      assert a + b == b;
    } else if b == [] {
      assert a + b == a;
    } else {
      assert EncodeRestrictions(a + b) == EncodeRestrictions(a) + EncodeRestrictions(b);
      JoinAppend('&', EncodeRestrictions(a), EncodeRestrictions(b));
    }
  }

  // ---------------------------------------------------------------------------
  // Runes and the authentication-code chain

  datatype AuthCode = Seeded(seed: seq<bv8>) | Extended(prior: AuthCode, restriction: string)

  datatype Rune = Rune(authcode: AuthCode, restrictions: seq<Restriction>) {
    /** `add_restriction`: append the restriction and continue the code over its text. */
    function AddRestriction(r: Restriction): (out: Rune)
      ensures out.restrictions == restrictions + [r]
      ensures out.authcode == Extended(authcode, EncodeRestriction(r))
    {
      Rune(Extended(authcode, EncodeRestriction(r)), restrictions + [r])
    }
  }

  /** The authentication code reached from `code` by adding `rs` in order. */
  function Chain(code: AuthCode, rs: seq<Restriction>): AuthCode
    decreases |rs|
  {
    if rs == [] then code else Extended(Chain(code, rs[..|rs| - 1]), EncodeRestriction(rs[|rs| - 1]))
  }

  lemma {:induction false} ChainAppend(code: AuthCode, a: seq<Restriction>, b: seq<Restriction>)
    ensures Chain(code, a + b) == Chain(Chain(code, a), b)
    decreases |b|
  {
    if b == [] {
      assert a + b == a;
    } else {
      assert (a + b)[..|a + b| - 1] == a + b[..|b| - 1];
      ChainAppend(code, a, b[..|b| - 1]);
    }
  }

  /** `add_restriction` applied to each of `rs` in order. */
  function AddRestrictions(rune: Rune, rs: seq<Restriction>): Rune
    decreases |rs|
  {
    if rs == [] then rune else AddRestrictions(rune, rs[..|rs| - 1]).AddRestriction(rs[|rs| - 1])
  }

  /** Adding restrictions keeps every old restriction in place, appends the new ones and extends the chain. */
  lemma {:induction false} AddRestrictionsShape(rune: Rune, rs: seq<Restriction>)
    ensures AddRestrictions(rune, rs) == Rune(Chain(rune.authcode, rs), rune.restrictions + rs)
    decreases |rs|
  {
    if rs != [] {
      var init := rs[..|rs| - 1];
      AddRestrictionsShape(rune, init);
      assert rune.restrictions + init + [rs[|rs| - 1]] == rune.restrictions + rs;
    }
  }

  /** `Rune::new_master_rune(seed, restrictions, ..)` with the code derived from the seed. */
  function MasterRune(seed: seq<bv8>, restrictions: seq<Restriction>): Rune {
    AddRestrictions(Rune(Seeded(seed), []), restrictions)
  }

  /** `Rune::new(authcode, restrictions, ..)`: a rune derived from an existing code. */
  function NewRune(authcode: AuthCode, restrictions: seq<Restriction>): Rune {
    AddRestrictions(Rune(authcode, []), restrictions)
  }

  /** The seed code a chain starts from. */
  function Root(code: AuthCode): (root: AuthCode)
    ensures root.Seeded?
  {
    match code
    case Seeded(_) => code
    case Extended(prior, _) => Root(prior)
  }

  /** Extending a code never changes the seed it started from. */
  lemma {:induction false} RootOfChain(code: AuthCode, rs: seq<Restriction>)
    ensures Root(Chain(code, rs)) == Root(code)
    decreases |rs|
  {
    if rs != [] {
      RootOfChain(code, rs[..|rs| - 1]);
    }
  }

  /**
   * `master.is_authorized(other)`: `other`'s code is the code of the master's
   * seed continued over `other`'s restrictions. The master's own restrictions
   * play no part.
   */
  predicate IsAuthorized(master: Rune, other: Rune) {
    Chain(Root(master.authcode), other.restrictions) == other.authcode
  }

  /** A master rune authorizes itself, whatever restrictions it was created with. */
  lemma MasterAuthorizesItself(seed: seq<bv8>, restrictions: seq<Restriction>)
    ensures IsAuthorized(MasterRune(seed, restrictions), MasterRune(seed, restrictions))
  {
    AddRestrictionsShape(Rune(Seeded(seed), []), restrictions);
    RootOfChain(Seeded(seed), restrictions);
    assert [] + restrictions == restrictions;
  }

  /** A rune built from the code of an unrestricted master that authorizes itself shares its lineage. */
  lemma DerivedIsAuthorized(master: Rune, restrictions: seq<Restriction>)
    requires master.restrictions == [] && IsAuthorized(master, master)
    ensures IsAuthorized(master, NewRune(master.authcode, restrictions))
  {
    AddRestrictionsShape(Rune(master.authcode, []), restrictions);
    assert [] + restrictions == restrictions;
  }

  /** Adding restrictions to an authorized rune keeps its lineage. */
  lemma AuthorizedAfterAdding(master: Rune, rune: Rune, rs: seq<Restriction>)
    requires IsAuthorized(master, rune)
    ensures IsAuthorized(master, AddRestrictions(rune, rs))
  {
    AddRestrictionsShape(rune, rs);
    ChainAppend(master.authcode, rune.restrictions, rs);
  }

  // ---------------------------------------------------------------------------
  // Encoded runes and decoding

  /** What `to_base64` encodes: the authentication code followed by the restriction text. */
  datatype EncodedRune = EncodedRune(authcode: AuthCode, restrictions: string)

  function Encode(rune: Rune): EncodedRune {
    EncodedRune(rune.authcode, EncodeRestrictionList(rune.restrictions))
  }

  /** `s` cut at every `sep`; always at least one part. */
  function Split(s: string, sep: char): (parts: seq<string>)
    ensures |parts| > 0
    decreases |s|
  {
    if s == [] then [""]
    else
      var rest := Split(s[1..], sep);
      if s[0] == sep then [""] + rest else [[s[0]] + rest[0]] + rest[1..]
  }

  lemma {:induction false} SplitFree(s: string, sep: char)
    requires Free(s, {sep})
    ensures Split(s, sep) == [s]
    decreases |s|
  {
    if s != [] {
      SplitFree(s[1..], sep);
      assert [s[0]] + s[1..] == s;
    }
  }

  lemma {:induction false} SplitAtSeparator(p: string, sep: char, rest: string)
    requires Free(p, {sep})
    ensures Split(p + [sep] + rest, sep) == [p] + Split(rest, sep)
    decreases |p|
  {
    var s := p + [sep] + rest;
    if p == [] {
      assert s[1..] == rest;
    } else {
      assert s[1..] == p[1..] + [sep] + rest;
      SplitAtSeparator(p[1..], sep, rest);
      assert [p[0]] + p[1..] == p;
    }
  }

  /** Splitting undoes joining when no part holds the separator. */
  lemma {:induction false} SplitJoin(sep: char, parts: seq<string>)
    requires |parts| > 0
    requires forall i :: 0 <= i < |parts| ==> Free(parts[i], {sep})
    ensures Split(Join(sep, parts), sep) == parts
    decreases |parts|
  {
    if |parts| == 1 {
      SplitFree(parts[0], sep);
    } else {
      SplitJoin(sep, parts[1..]);
      SplitAtSeparator(parts[0], sep, Join(sep, parts[1..]));
      assert [parts[0]] + parts[1..] == parts;
    }
  }

  /** The index of the first condition symbol in `s`, if any. */
  function FirstSymbol(s: string): (r: Option<nat>)
    ensures r.Some? ==> r.value < |s| && IsSymbol(s[r.value]) && forall j :: 0 <= j < r.value ==> !IsSymbol(s[j])
    ensures r.None? ==> forall j :: 0 <= j < |s| ==> !IsSymbol(s[j])
    decreases |s|
  {
    if s == [] then None
    else if IsSymbol(s[0]) then Some(0)
    else match FirstSymbol(s[1..])
      case None => None
      case Some(k) => Some(k + 1)
  }

  function DecodeAlternative(s: string): (r: Result<Alternative, RuneError>)
    ensures r.Err? <==> forall j :: 0 <= j < |s| ==> !IsSymbol(s[j])
  {
    match FirstSymbol(s)
    case None => Err(MalformedAlternative(s))
    case Some(i) => Ok(Alternative(s[..i], ConditionOf(s[i]), s[i + 1..], false))
  }

  function DecodeAlternatives(parts: seq<string>): Result<seq<Alternative>, RuneError>
    decreases |parts|
  {
    if parts == [] then Ok([])
    else
      var a :- DecodeAlternative(parts[0]);
      var rest :- DecodeAlternatives(parts[1..]);
      Ok([a] + rest)
  }

  function DecodeRestriction(s: string): Result<Restriction, RuneError> {
    var alts :- DecodeAlternatives(Split(s, '|'));
    NewRestriction(alts)
  }

  function DecodeRestrictions(parts: seq<string>): Result<seq<Restriction>, RuneError>
    decreases |parts|
  {
    if parts == [] then Ok([])
    else
      var r :- DecodeRestriction(parts[0]);
      var rest :- DecodeRestrictions(parts[1..]);
      Ok([r] + rest)
  }

  function DecodeRestrictionList(text: string): Result<seq<Restriction>, RuneError> {
    if text == "" then Ok([]) else DecodeRestrictions(Split(text, '&'))
  }

  /** `Rune::from_base64`, after the base64 layer: the code is taken as is, the text is parsed. */
  function Decode(e: EncodedRune): Result<Rune, RuneError> {
    var rs :- DecodeRestrictionList(e.restrictions);
    Ok(Rune(e.authcode, rs))
  }

  /** The alternatives the encoding can carry without escaping. */
  predicate Encodable(alt: Alternative) {
    && Free(alt.field, {'=', '^', '!', '|', '&'})
    && Free(alt.value, {'|', '&'})
    && !alt.caseInsensitive
  }

  predicate EncodableRestriction(r: Restriction) {
    r.Valid() && forall i :: 0 <= i < |r.alternatives| ==> Encodable(r.alternatives[i])
  }

  predicate EncodableRune(rune: Rune) {
    forall i :: 0 <= i < |rune.restrictions| ==> EncodableRestriction(rune.restrictions[i])
  }

  lemma DecodeEncodeAlternative(alt: Alternative)
    requires Encodable(alt)
    ensures DecodeAlternative(EncodeAlternative(alt)) == Ok(alt)
    ensures Free(EncodeAlternative(alt), {'|', '&'})
  {
    var s := EncodeAlternative(alt);
    var n := |alt.field|;
    assert IsSymbol(s[n]);
    forall j | 0 <= j < n ensures !IsSymbol(s[j]) {
      assert s[j] == alt.field[j];
    }
    assert FirstSymbol(s) == Some(n);
    assert s[..n] == alt.field;
    assert s[n + 1..] == alt.value;
    forall i | 0 <= i < |s| ensures s[i] !in {'|', '&'} {
      if i < n {
        assert s[i] == alt.field[i];
      } else if i > n {
        assert s[i] == alt.value[i - n - 1];
      }
    }
  }

  lemma {:induction false} DecodeEncodeAlternatives(alts: seq<Alternative>)
    requires forall i :: 0 <= i < |alts| ==> Encodable(alts[i])
    ensures DecodeAlternatives(EncodeAlternatives(alts)) == Ok(alts)
    decreases |alts|
  {
    var encs := EncodeAlternatives(alts);
    if alts != [] {
      DecodeEncodeAlternative(alts[0]);
      DecodeEncodeAlternatives(alts[1..]);
      assert encs[1..] == EncodeAlternatives(alts[1..]);
      assert [alts[0]] + alts[1..] == alts;
    }
  }

  lemma DecodeEncodeRestriction(r: Restriction)
    requires EncodableRestriction(r)
    ensures DecodeRestriction(EncodeRestriction(r)) == Ok(r)
    ensures Free(EncodeRestriction(r), {'&'})
    ensures EncodeRestriction(r) != ""
  {
    var alts := r.alternatives;
    var encs := EncodeAlternatives(alts);
    forall i | 0 <= i < |encs| ensures Free(encs[i], {'|'}) && Free(encs[i], {'&'}) {
      DecodeEncodeAlternative(alts[i]);
    }
    SplitJoin('|', encs);
    DecodeEncodeAlternatives(alts);
    assert DecodeAlternatives(Split(EncodeRestriction(r), '|')) == Ok(alts);
    JoinFree('|', encs, {'&'});
    JoinStartsWithFirst('|', encs);
    assert |encs[0]| > 0;
  }

  /** Parts that each decode to a restriction decode, as a list, to those restrictions in order. */
  lemma {:induction false} DecodeRestrictionsEach(parts: seq<string>, rs: seq<Restriction>)
    requires |parts| == |rs|
    requires forall i :: 0 <= i < |parts| ==> DecodeRestriction(parts[i]) == Ok(rs[i])
    ensures DecodeRestrictions(parts) == Ok(rs)
    decreases |parts|
  {
    if parts != [] {
      assert forall i :: 0 <= i < |parts| - 1 ==> parts[1..][i] == parts[i + 1] && rs[1..][i] == rs[i + 1];
      DecodeRestrictionsEach(parts[1..], rs[1..]);
      assert [rs[0]] + rs[1..] == rs;
    }
  }

  lemma DecodeEncodeRestrictions(rs: seq<Restriction>)
    requires forall i :: 0 <= i < |rs| ==> EncodableRestriction(rs[i])
    ensures DecodeRestrictions(EncodeRestrictions(rs)) == Ok(rs)
  {
    var encs := EncodeRestrictions(rs);
    forall i | 0 <= i < |encs| ensures DecodeRestriction(encs[i]) == Ok(rs[i]) {
      DecodeEncodeRestriction(rs[i]);
    }
    DecodeRestrictionsEach(encs, rs);
  }

  /** Decoding an encoded rune gives the rune back, for restrictions the encoding can carry. */
  lemma DecodeEncode(rune: Rune)
    requires EncodableRune(rune)
    ensures Decode(Encode(rune)) == Ok(rune)
  {
    var rs := rune.restrictions;
    var encs := EncodeRestrictions(rs);
    if rs != [] {
      forall i | 0 <= i < |encs| ensures Free(encs[i], {'&'}) {
        DecodeEncodeRestriction(rs[i]);
      }
      SplitJoin('&', encs);
      DecodeEncodeRestrictions(rs);
      DecodeEncodeRestriction(rs[0]);
      JoinStartsWithFirst('&', encs);
      assert |encs[0]| > 0;
    }
  }
}
