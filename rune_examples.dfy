/**
 * The repository's rune tests, restated as lemmas about the model: carving a
 * master rune, the display tags, and the context checks.
 */
module RuneExamples {
  import opened Results
  import opened RuneAuth
  import opened Runes

  /** The two alternatives of `ReadOnly` render as `method^Get|method^List`. */
  lemma ReadOnlyText()
    ensures EncodeRestriction(ReadOnlyRestriction()) == "method^Get|method^List"
  {
    var alts := ReadOnlyRestriction().alternatives;
    assert alts == [Alternative("method", BeginsWith, "Get", false), Alternative("method", BeginsWith, "List", false)];
    var encs := EncodeAlternatives(alts);
    assert encs[0] == "method^Get";
    assert encs[1] == "method^List";
    assert encs[1..] == ["method^List"];
  }

  /** The one alternative of `Pay` renders as `method=pay`. */
  lemma PayText()
    ensures EncodeRestriction(PayRestriction()) == "method=pay"
  {
    var alts := PayRestriction().alternatives;
    assert alts == [Alternative("method", Equal, "pay", false)];
    var encs := EncodeAlternatives(alts);
    assert encs[0] == "method=pay";
  }

  /** Carving one policy that generates `r` adds `r` to the origin and nothing else. */
  lemma CarveOne(origin: Rune, p: DefRule, r: Restriction)
    requires Generated(p) == Ok([r])
    ensures Carved(origin, [p]) == Ok(origin.AddRestriction(r))
  {
    assert [p][..0] == [];
    assert GeneratedAll([p]) == Ok([] + [r]);
    assert [] + [r] == [r] && [r][..0] == [];
    assert GeneratedAll([p]) == Ok([r]);
    assert AddRestrictions(origin, [r]) == AddRestrictions(origin, []).AddRestriction(r);
  }

  /** A master rune with one restriction added encodes that restriction's text and stays authorized by the master. */
  lemma MasterWithOne(seed: seq<bv8>, r: Restriction)
    ensures Encode(MasterRune(seed, []).AddRestriction(r)).restrictions == EncodeRestriction(r)
    ensures IsAuthorized(MasterRune(seed, []), MasterRune(seed, []).AddRestriction(r))
  {
    assert MasterRune(seed, []) == Rune(Seeded(seed), []);
    assert EncodeRestrictions([r]) == [EncodeRestriction(r)];
  }

  /** Carving `[ReadOnly]` from a master rune gives `method^Get|method^List`, and the result decodes to itself and is authorized by the master, for any seed. */
  lemma CarveReadOnlyExample(seed: seq<bv8>)
    ensures Carved(MasterRune(seed, []), [ReadOnly]).Ok?
    ensures Encode(Carved(MasterRune(seed, []), [ReadOnly]).value).restrictions == "method^Get|method^List"
    ensures IsAuthorized(MasterRune(seed, []), Carved(MasterRune(seed, []), [ReadOnly]).value)
    ensures Decode(Encode(Carved(MasterRune(seed, []), [ReadOnly]).value)) == Carved(MasterRune(seed, []), [ReadOnly])
  {
    assert MasterRune(seed, []) == Rune(Seeded(seed), []);
    CarvedDecodes(MasterRune(seed, []), [ReadOnly]);
    var r := ReadOnlyRestriction();
    assert Generated(ReadOnly) == Ok([r]);
    CarveOne(MasterRune(seed, []), ReadOnly, r);
    MasterWithOne(seed, r);
    ReadOnlyText();
  }

  /** The restriction `Add([ReadOnly, Pay])` generates: the alternatives of both, in order. */
  lemma ReadOnlyOrPay()
    ensures Generated(Add([ReadOnly, Pay])) == Ok([Restriction(ReadOnlyRestriction().alternatives + PayRestriction().alternatives)])
  {
    var rules := [ReadOnly, Pay];
    AlternativesOfSingle(ReadOnlyRestriction());
    AlternativesOfSingle(PayRestriction());
    AddAlternativesSingle(ReadOnly);
    assert rules[..1] == [ReadOnly];
    assert AddAlternatives(rules) == Ok(ReadOnlyRestriction().alternatives + PayRestriction().alternatives);
  }

  lemma ReadOnlyOrPayText()
    ensures EncodeRestriction(Restriction(ReadOnlyRestriction().alternatives + PayRestriction().alternatives))
      == "method^Get|method^List|method=pay"
  {
    RestrictionTextAppend(ReadOnlyRestriction().alternatives, PayRestriction().alternatives);
    ReadOnlyText();
    PayText();
  }

  /** `Add([ReadOnly, Pay])` flattens to `method^Get|method^List|method=pay`; the carved rune decodes to itself and is authorized by the master, for any seed. */
  lemma CarveDisjunctionExample(seed: seq<bv8>)
    ensures Carved(MasterRune(seed, []), [Add([ReadOnly, Pay])]).Ok?
    ensures Encode(Carved(MasterRune(seed, []), [Add([ReadOnly, Pay])]).value).restrictions == "method^Get|method^List|method=pay"
    ensures IsAuthorized(MasterRune(seed, []), Carved(MasterRune(seed, []), [Add([ReadOnly, Pay])]).value)
    ensures Decode(Encode(Carved(MasterRune(seed, []), [Add([ReadOnly, Pay])]).value)) == Carved(MasterRune(seed, []), [Add([ReadOnly, Pay])])
  {
    var r := Restriction(ReadOnlyRestriction().alternatives + PayRestriction().alternatives);
    ReadOnlyOrPay();
    CarveOne(MasterRune(seed, []), Add([ReadOnly, Pay]), r);
    assert MasterRune(seed, []) == Rune(Seeded(seed), []);
    CarvedDecodes(MasterRune(seed, []), [Add([ReadOnly, Pay])]);
    MasterWithOne(seed, r);
    ReadOnlyOrPayText();
  }

  /** `Pay` displays as `pay`, `Add([Pay])` as `pay`, `Add([Pay, ReadOnly])` as `pay|readonly`. */
  lemma DisplayExamples()
    ensures Display(Pay) == "pay"
    ensures Display(Add([Pay])) == "pay"
    ensures Display(Add([Pay, ReadOnly])) == "pay|readonly"
  {
    assert [Pay][..0] == [];
    assert [Pay, ReadOnly][..1] == [Pay];
  }

  /** The display fold drops a leading empty tag but keeps a trailing one; neither arises from a well-formed policy. */
  lemma DisplayEmptyTagExamples()
    ensures Display(Add([Add([]), Pay])) == "pay"
    ensures Display(Add([Pay, Add([])])) == "pay|"
    ensures !WellFormed(Add([]))
  {
    assert [Add([]), Pay][..1] == [Add([])] && [Add([])][..0] == [];
    assert [Pay, Add([])][..1] == [Pay] && [Pay][..0] == [];
  }

  /** The restriction `pubkey=020000000000000000` is met exactly by that public key, whatever the method. */
  lemma PubkeyEqualExample(code: AuthCode, ctx: Context)
    ensures Met(NewRune(code, [Restriction([Alternative("pubkey", Equal, "020000000000000000", false)])]), ctx)
      <==> ctx.pubkey == "020000000000000000"
  {
    SingleAlternativeRune(code, Alternative("pubkey", Equal, "020000000000000000", false), ctx);
  }

  /** The restriction `method=GetInfo` is met exactly by that method. */
  lemma MethodEqualExample(code: AuthCode, ctx: Context)
    ensures Met(NewRune(code, [Restriction([Alternative("method", Equal, "GetInfo", false)])]), ctx)
      <==> ctx.methodName == "GetInfo"
  {
    SingleAlternativeRune(code, Alternative("method", Equal, "GetInfo", false), ctx);
  }

  /** `pubkey!` is met exactly when the public key is empty. */
  lemma PubkeyMissingExample(code: AuthCode, ctx: Context)
    ensures Met(NewRune(code, [Restriction([Alternative("pubkey", Missing, "", false)])]), ctx)
      <==> ctx.pubkey == ""
  {
    SingleAlternativeRune(code, Alternative("pubkey", Missing, "", false), ctx);
  }

  /** `method!` is met exactly when the method is empty. */
  lemma MethodMissingExample(code: AuthCode, ctx: Context)
    ensures Met(NewRune(code, [Restriction([Alternative("method", Missing, "", false)])]), ctx)
      <==> ctx.methodName == ""
  {
    SingleAlternativeRune(code, Alternative("method", Missing, "", false), ctx);
  }

  /** `ReadOnly` admits `ListFunds` and `GetInfo` and refuses `pay`; `Pay` admits only `pay`. */
  lemma PolicyExamples(pubkey: string, uniqueId: string, time: int)
    ensures RestrictionMet(Context("ListFunds", pubkey, uniqueId, time), ReadOnlyRestriction())
    ensures RestrictionMet(Context("GetInfo", pubkey, uniqueId, time), ReadOnlyRestriction())
    ensures !RestrictionMet(Context("pay", pubkey, uniqueId, time), ReadOnlyRestriction())
    ensures RestrictionMet(Context("pay", pubkey, uniqueId, time), PayRestriction())
    ensures !RestrictionMet(Context("GetInfo", pubkey, uniqueId, time), PayRestriction())
  {
    ReadOnlyAllows(Context("ListFunds", pubkey, uniqueId, time));
    ReadOnlyAllows(Context("GetInfo", pubkey, uniqueId, time));
    ReadOnlyAllows(Context("pay", pubkey, uniqueId, time));
    assert "Get"[0] != "pay"[0] && "List"[0] != "pay"[0];
    PayAllows(Context("pay", pubkey, uniqueId, time));
    PayAllows(Context("GetInfo", pubkey, uniqueId, time));
  }
}
