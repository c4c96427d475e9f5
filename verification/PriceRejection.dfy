/** Imports that end with an error. A rejected option is stored before it is rejected, so it is
    there for every later import. */
module PriceRejection {
  import opened Wrappers
  import opened PriceTransfer

  // ---------- where an import stops ----------

  // A plan fails exactly at a write behind accepted ones that leaves an unreadable option; that
  // write is the last one carried out, and it is stored.
  lemma StopsThere(accepts: Accepts, o: Options, done: Plan, w: Write, rest: Plan)
    requires Accepted(accepts, o, done) && !Readable(accepts, Apply(o, Then(done, w)), w.slot)
    ensures var p := Concat(Then(done, w), rest);
      !Accepted(accepts, o, p) && Carry(accepts, o, p) == Apply(o, Then(done, w))
  {
    AcceptedConcat(accepts, o, Then(done, w), rest);
  }

  lemma {:induction false} FailureLeaves(accepts: Accepts, o: Options, p: Plan) returns (done: Plan, w: Write, rest: Plan)
    requires !Accepted(accepts, o, p)
    ensures p == Concat(Then(done, w), rest) && Accepted(accepts, o, done)
    ensures !Readable(accepts, Apply(o, Then(done, w)), w.slot)
    ensures Carry(accepts, o, p) == Apply(o, Then(done, w))
  {
    if Accepted(accepts, o, p.before) {
      done, w, rest := p.before, p.w, Empty;
    } else {
      var r;
      done, w, r := FailureLeaves(accepts, o, p.before);
      rest := Then(r, p.w);
    }
  }

  // ---------- importing again ----------

  // An import that failed removes no price, and the same import fails every time.
  lemma RetryFails(accepts: Accepts, o: Options, p: Plan)
    requires !Accepted(accepts, o, p)
    ensures Keeps(o, Carry(accepts, o, p))
    ensures !Accepted(accepts, Carry(accepts, o, p), p)
  {
    var done, w, rest := FailureLeaves(accepts, o, p);
    var q := Then(done, w);
    var o1 := Apply(o, q);
    ApplyKeepsKeys(o, q);
    ApplyTwice(o, q);
    AcceptedConcat(accepts, o1, q, rest);
  }

  // ---------- options that are read price by price ----------

  type Valid = (Slot, string, Price) -> bool

  ghost predicate AllValid(valid: Valid, o: Options) {
    forall s, m :: m in Get(o, s) ==> valid(s, m, Get(o, s)[m])
  }

  // An option is read if each of its prices is.
  ghost predicate PriceByPrice(accepts: Accepts, valid: Valid) {
    forall key, o :: accepts(key, o) <==> AllValid(valid, o)
  }

  ghost predicate SoundWrite(valid: Valid, w: Write) {
    forall m :: m in w.src ==> valid(w.slot, m, w.src[m])
  }

  // Every incoming price is valid.
  ghost predicate Sound(valid: Valid, p: Plan) {
    p.Then? ==> Sound(valid, p.before) && SoundWrite(valid, p.w)
  }

  // The last price that a plan brings for one model in one slot.
  function Latest(p: Plan, s: Slot, m: string): Option<Price> {
    if p.Empty? then None
    else if p.w.slot == s && m in p.w.src then Some(p.w.src[m])
    else Latest(p.before, s, m)
  }

  lemma {:induction false} PriceAfter(o: Options, p: Plan, s: Slot, m: string)
    ensures m in Get(Apply(o, p), s) <==> m in Get(o, s) || Latest(p, s, m).Some?
    ensures m in Get(Apply(o, p), s) ==>
      Get(Apply(o, p), s)[m] == if Latest(p, s, m).Some? then Latest(p, s, m).value else Get(o, s)[m]
  {
    if p.Then? {
      PriceAfter(o, p.before, s, m);
    }
  }

  lemma {:induction false} LatestIsSound(valid: Valid, p: Plan, s: Slot, m: string)
    requires Sound(valid, p) && Latest(p, s, m).Some?
    ensures valid(s, m, Latest(p, s, m).value)
  {
    if !(p.w.slot == s && m in p.w.src) {
      LatestIsSound(valid, p.before, s, m);
    }
  }

  // A stored price that cannot be read.
  predicate Broken(valid: Valid, o: Options, s: Slot, m: string) {
    m in Get(o, s) && !valid(s, m, Get(o, s)[m])
  }

  // The plan has brought a new price for every broken one of this option.
  ghost predicate Mends(valid: Valid, o: Options, p: Plan, key: OptionKey) {
    forall s, m :: KeyOf(s) == key && Broken(valid, o, s, m) ==> Latest(p, s, m).Some?
  }

  // By the time an option is written, everything broken in it has a new price.
  ghost predicate MendsAll(valid: Valid, o: Options, p: Plan) {
    p.Then? ==> MendsAll(valid, o, p.before) && Mends(valid, o, p, KeyOf(p.w.slot))
  }

  lemma ReadableExactly(accepts: Accepts, valid: Valid, o: Options, key: OptionKey, s: Slot)
    requires PriceByPrice(accepts, valid) && KeyOf(s) == key
    ensures Readable(accepts, o, s) <==> forall t, m :: KeyOf(t) == key ==> !Broken(valid, o, t, m)
  {
    var content := Stored(o, key);
    assert forall t :: Get(content, t) == if KeyOf(t) == key then Get(o, t) else map[];
    assert accepts(key, content) <==> AllValid(valid, content);
    if !AllValid(valid, content) {
      var t, m :| m in Get(content, t) && !valid(t, m, Get(content, t)[m]);
      assert Broken(valid, o, t, m);
    }
  }

  lemma BrokenAfter(valid: Valid, o: Options, p: Plan, s: Slot, m: string)
    requires Sound(valid, p)
    ensures Broken(valid, Apply(o, p), s, m) <==> Broken(valid, o, s, m) && Latest(p, s, m).None?
  {
    PriceAfter(o, p, s, m);
    if Latest(p, s, m).Some? {
      LatestIsSound(valid, p, s, m);
    }
  }

  lemma UnsoundIsBroken(valid: Valid, o: Options, p: Plan) returns (m: string)
    requires p.Then? && !SoundWrite(valid, p.w)
    ensures Broken(valid, Apply(o, p), p.w.slot, m)
  {
    m :| m in p.w.src && !valid(p.w.slot, m, p.w.src[m]);
    PriceAfter(o, p, p.w.slot, m);
  }

  // An import succeeds exactly when every incoming price is valid and every broken price of an
  // option it writes is replaced before or while it writes that option first.
  lemma {:induction false} AcceptedExactly(accepts: Accepts, valid: Valid, o: Options, p: Plan)
    requires PriceByPrice(accepts, valid)
    ensures Accepted(accepts, o, p) <==> Sound(valid, p) && MendsAll(valid, o, p)
  {
    if p.Then? {
      AcceptedExactly(accepts, valid, o, p.before);
      ReadableExactly(accepts, valid, Apply(o, p), KeyOf(p.w.slot), p.w.slot);
      if !SoundWrite(valid, p.w) {
        var m := UnsoundIsBroken(valid, o, p);
      } else if Sound(valid, p.before) {
        forall s, m ensures Broken(valid, Apply(o, p), s, m) <==> Broken(valid, o, s, m) && Latest(p, s, m).None? {
          BrokenAfter(valid, o, p, s, m);
        }
      }
    }
  }

  // ---------- after a failed import ----------

  // Where nothing is broken an import succeeds exactly when every incoming price is valid.
  lemma {:induction false} SoundMends(valid: Valid, o: Options, p: Plan)
    requires AllValid(valid, o)
    ensures MendsAll(valid, o, p)
  {
    if p.Then? {
      SoundMends(valid, o, p.before);
    }
  }

  lemma CleanSiteExactly(accepts: Accepts, valid: Valid, o: Options, p: Plan)
    requires PriceByPrice(accepts, valid) && AllValid(valid, o)
    ensures Accepted(accepts, o, p) <==> Sound(valid, p)
  {
    AcceptedExactly(accepts, valid, o, p);
    SoundMends(valid, o, p);
  }

  // The later plan brings a new price for each invalid one of the rejected write, by the time
  // it writes that option.
  ghost predicate Replaces(valid: Valid, w: Write, p: Plan) {
    p.Then? ==>
      && Replaces(valid, w, p.before)
      && (KeyOf(p.w.slot) == KeyOf(w.slot) ==>
            forall m :: m in w.src && !valid(w.slot, m, w.src[m]) ==> Latest(p, w.slot, m).Some?)
  }

  lemma BrokenByWrite(valid: Valid, o: Options, done: Plan, w: Write, s: Slot, m: string)
    requires AllValid(valid, o) && Sound(valid, done)
    ensures Broken(valid, Apply(o, Then(done, w)), s, m) <==> s == w.slot && m in w.src && !valid(s, m, w.src[m])
  {
    PriceAfter(o, Then(done, w), s, m);
    if Latest(done, s, m).Some? {
      LatestIsSound(valid, done, s, m);
    }
  }

  lemma {:induction false} MendingIsReplacing(valid: Valid, o1: Options, w: Write, p: Plan)
    requires forall s, m :: Broken(valid, o1, s, m) <==> s == w.slot && m in w.src && !valid(s, m, w.src[m])
    ensures MendsAll(valid, o1, p) <==> Replaces(valid, w, p)
  {
    if p.Then? {
      MendingIsReplacing(valid, o1, w, p.before);
      if KeyOf(p.w.slot) == KeyOf(w.slot) && Mends(valid, o1, p, KeyOf(p.w.slot)) {
        forall m | m in w.src && !valid(w.slot, m, w.src[m]) ensures Latest(p, w.slot, m).Some? {
          assert Broken(valid, o1, w.slot, m);
        }
      }
    }
  }

  // After an import failed at a site where nothing was broken, another one succeeds exactly when
  // its own prices are valid and it replaces what the rejected write left, if it touches that
  // option at all.
  lemma LaterImportExactly(accepts: Accepts, valid: Valid, o: Options, p: Plan, later: Plan) returns (done: Plan, w: Write, rest: Plan)
    requires PriceByPrice(accepts, valid) && AllValid(valid, o) && !Accepted(accepts, o, p)
    ensures p == Concat(Then(done, w), rest) && Sound(valid, done) && !SoundWrite(valid, w)
    ensures Carry(accepts, o, p) == Apply(o, Then(done, w))
    ensures Accepted(accepts, Carry(accepts, o, p), later) <==> Sound(valid, later) && Replaces(valid, w, later)
  {
    done, w, rest := FailureLeaves(accepts, o, p);
    var o1 := Apply(o, Then(done, w));
    CleanSiteExactly(accepts, valid, o, done);
    CleanSiteExactly(accepts, valid, o, Then(done, w));
    forall s, m ensures Broken(valid, o1, s, m) <==> s == w.slot && m in w.src && !valid(s, m, w.src[m]) {
      BrokenByWrite(valid, o, done, w, s, m);
    }
    AcceptedExactly(accepts, valid, o1, later);
    MendingIsReplacing(valid, o1, w, later);
  }

  // ---------- one input ----------

  function Tiers(model: string, json: string): Plan {
    Then(Empty, Write(Slot(Global, ModelTierRatio), map[model := Rules(json)]))
  }

  // The tier "5" for model "m" is no list of segments. Importing it into a new site fails and
  // fails again. Then even a good tier for another model fails, and only a good tier for "m"
  // succeeds.
  lemma BadTierStays(accepts: Accepts, valid: Valid, bad: string, good: string, m: string, n: string)
    requires bad == "5" && good == "{}" && m == "m" && n == "n" && PriceByPrice(accepts, valid)
    requires forall s, x, price :: valid(s, x, price) <==> price != Rules(bad)
    ensures !Accepted(accepts, map[], Tiers(m, bad))
    ensures var after := Carry(accepts, map[], Tiers(m, bad));
      && !Accepted(accepts, after, Tiers(m, bad))
      && !Accepted(accepts, after, Tiers(n, good))
      && Accepted(accepts, after, Tiers(m, good))
  {
    var first := Tiers(m, bad);
    assert !SoundWrite(valid, first.w) by {
      assert m in first.w.src;
    }
    CleanSiteExactly(accepts, valid, map[], first);
    RetryFails(accepts, map[], first);
    OnlyWrite(accepts, valid, first, Tiers(n, good));
    OnlyWrite(accepts, valid, first, Tiers(m, good));
    assert m in first.w.src && Latest(Tiers(n, good), first.w.slot, m).None?;
    assert Latest(Tiers(m, good), first.w.slot, m).Some?;
  }

  lemma OnlyWrite(accepts: Accepts, valid: Valid, first: Plan, later: Plan)
    requires PriceByPrice(accepts, valid) && first.Then? && first.before == Empty && !Accepted(accepts, map[], first)
    ensures Accepted(accepts, Carry(accepts, map[], first), later) <==> Sound(valid, later) && Replaces(valid, first.w, later)
  {
    var done, w, rest := LaterImportExactly(accepts, valid, map[], first, later);
    assert rest == Empty;
  }
}
