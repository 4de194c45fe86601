/** The canonical form of a concrete spec (concrete.go): the bytes that are
    hashed into a bottle's address. The form is a run of length-prefixed
    tokens; the theorem is that it determines the spec, up to the order in
    which values and dependencies were listed. */
module Identity {
  import opened Sorting
  import opened Text

  datatype Dep = Dep(project: string, version: string, hash: string)

  datatype Concrete = Concrete(
    platform: string,
    variants: map<string, seq<string>>,
    deps: seq<Dep>,
    recipe: string,
    graft: string)
  {
    predicate IsZero() {
      platform == "" && variants == map[] && deps == [] && recipe == "" && graft == ""
    }
  }

  /** What two specs of one build share: everything but listing order. */
  ghost predicate SameBuild(a: Concrete, b: Concrete) {
    && a.platform == b.platform
    && a.recipe == b.recipe
    && a.graft == b.graft
    && a.variants.Keys == b.variants.Keys
    && (forall n :: n in a.variants ==> multiset(a.variants[n]) == multiset(b.variants[n]))
    && multiset(a.deps) == multiset(b.deps)
  }

  predicate DepLe(a: Dep, b: Dep) {
    if a.project != b.project then Le(a.project, b.project)
    else if a.version != b.version then Le(a.version, b.version)
    else Le(a.hash, b.hash)
  }

  lemma DepLeOrders()
    ensures PreOrder(DepLe)
  {
    LeOrders();
    forall x, y, z | DepLe(x, y) && DepLe(y, z) ensures DepLe(x, z) {
      if x.project == z.project && x.project != y.project {
        LeAntiSymmetric(x.project, y.project);
      }
      if x.version == z.version && x.version != y.version {
        if x.project == y.project == z.project { LeAntiSymmetric(x.version, y.version); }
      }
    }
  }

  lemma SortDeps(a: seq<Dep>, b: seq<Dep>)
    ensures multiset(a) == multiset(b) <==> Sort(a, DepLe) == Sort(b, DepLe)
  {
    DepLeOrders();
    forall x, y | DepLe(x, y) && DepLe(y, x) ensures x == y {
      if x.project != y.project { LeAntiSymmetric(x.project, y.project); }
      else if x.version != y.version { LeAntiSymmetric(x.version, y.version); }
      else { LeAntiSymmetric(x.hash, y.hash); }
    }
    SortCanonical(a, b, DepLe);
  }

  // ----- tokens ----------------------------------------------------------

  const CANON_SEP: char := '\0'

  /** One token: separator, decimal length, colon, the bytes. */
  function Token(part: string): string {
    [CANON_SEP] + Itoa(|part|) + ":" + part
  }

  lemma TokenIs(part: string)
    ensures Token(part) == [CANON_SEP] + Itoa(|part|) + ":" + part
  {
  }

  function Encode(parts: seq<string>): string {
    if parts == [] then "" else Token(parts[0]) + Encode(parts[1..])
  }

  lemma EncodeNone()
    ensures Encode([]) == ""
  {
  }

  lemma {:induction false} EncodeAppend(a: seq<string>, b: seq<string>)
    ensures Encode(a + b) == Encode(a) + Encode(b)
  {
    if a == [] {
      assert a + b == b;
    } else {
      assert (a + b)[1..] == a[1..] + b;
      EncodeAppend(a[1..], b);
    }
  }

  lemma EncodeSnoc(parts: seq<string>, i: nat)
    requires i < |parts|
    ensures Encode(parts[..i + 1]) == Encode(parts[..i]) + Token(parts[i])
  {
    assert parts[..i + 1] == parts[..i] + [parts[i]];
    EncodeAppend(parts[..i], [parts[i]]);
    assert Encode([parts[i]]) == Token(parts[i]) + Encode([]) == Token(parts[i]);
  }

  /** The reader of the encoding: splits a text back into its tokens. */
  function Decode(s: string): seq<string>
    decreases |s|
  {
    if s == [] then [] else
    var k := DigitRun(s[1..]);
    var n := Numeral(s[1..][..k]);
    var start := 1 + k + 1;
    if start + n <= |s| then [s[start..start + n]] + Decode(s[start + n..]) else []
  }

  lemma DecodeToken(p: string, rest: string)
    ensures Decode(Token(p) + rest) == [p] + Decode(rest)
  {
    var digits := Itoa(|p|);
    var s := Token(p) + rest;
    NumeralItoa(|p|);
    assert s[1..] == digits + ":" + (p + rest);
    assert s[1..][..|digits|] == digits;
    DigitRunIs(s[1..], |digits|);
    var start := 1 + |digits| + 1;
    assert |Token(p)| == start + |p| && Token(p)[start..] == p;
    assert s[start..start + |p|] == p;
    assert s[start + |p|..] == rest;
  }

  /** Reading back what was written, for any bytes in any token. */
  lemma {:induction false} DecodeEncode(parts: seq<string>)
    ensures Decode(Encode(parts)) == parts
  {
    if parts != [] {
      hide Decode, Token;
      DecodeToken(parts[0], Encode(parts[1..]));
      DecodeEncode(parts[1..]);
      assert parts == [parts[0]] + parts[1..];
    } else {
      assert Decode("") == [];
    }
  }

  // ----- the spec as tokens -------------------------------------------------

  function Optional(tag: string, value: string): seq<string> {
    if value == "" then [] else [tag, value]
  }

  /** One variant: its name, how many values, and the values in order. */
  function VariantTokens(name: string, values: seq<string>): seq<string> {
    ["var", name, Itoa(|values|)] + Sort(values, Le)
  }

  function VariantsTokens(names: seq<string>, variants: map<string, seq<string>>): seq<string>
    requires forall n :: n in names ==> n in variants
  {
    if names == [] then []
    else VariantTokens(names[0], variants[names[0]]) + VariantsTokens(names[1..], variants)
  }

  function DepTokens(d: Dep): seq<string> {
    ["dep", d.project, d.version, d.hash]
  }

  function DepsTokens(deps: seq<Dep>): seq<string> {
    if deps == [] then [] else DepTokens(deps[0]) + DepsTokens(deps[1..])
  }

  ghost function AllVariantTokens(variants: map<string, seq<string>>): seq<string> {
    AscendingMembers(variants.Keys);
    VariantsTokens(Ascending(variants.Keys), variants)
  }

  ghost function Tail(c: Concrete): seq<string> {
    Optional("recipe", c.recipe) + Optional("graft", c.graft)
  }

  ghost function Tokens(c: Concrete): seq<string> {
    Optional("platform", c.platform)
    + (AllVariantTokens(c.variants) + (DepsTokens(Sort(c.deps, DepLe)) + Tail(c)))
  }

  /** The canonical form, stated on the spec as a value. */
  ghost function CanonicalForm(c: Concrete): string {
    "v1" + Encode(Tokens(c))
  }

  // ----- the tokens determine the spec ---------------------------------------

  /** A token list that does not begin with `tag`. */
  predicate NotLed(tokens: seq<string>, tag: string) {
    tokens == [] || tokens[0] != tag
  }

  lemma OptionalApart(tag: string, v: string, rest: seq<string>, w: string, rest': seq<string>)
    requires NotLed(rest, tag) && NotLed(rest', tag)
    requires Optional(tag, v) + rest == Optional(tag, w) + rest'
    ensures v == w && rest == rest'
  {
    var s := Optional(tag, v) + rest;
    var s' := Optional(tag, w) + rest';
    if v != "" { assert s[0] == tag && s[1] == v && s[2..] == rest; } else { assert s == rest; }
    if w != "" { assert s'[0] == tag && s'[1] == w && s'[2..] == rest'; } else { assert s' == rest'; }
  }

  /** Equal lists that start with blocks of one length start with one block. */
  lemma Cancel<T>(a: seq<T>, more: seq<T>, b: seq<T>, more': seq<T>)
    requires |a| == |b| && a + more == b + more'
    ensures a == b && more == more'
  {
    var k := |a|;
    assert (a + more)[..k] == a && (b + more')[..k] == b;
    assert (a + more)[k..] == more && (b + more')[k..] == more';
  }

  lemma DepsHead(ds: seq<Dep>, rest: seq<string>)
    requires ds != []
    ensures DepsTokens(ds) + rest == DepTokens(ds[0]) + (DepsTokens(ds[1..]) + rest)
    ensures !NotLed(DepsTokens(ds) + rest, "dep")
  {
  }

  lemma {:induction false} DepsApart(ds: seq<Dep>, rest: seq<string>, es: seq<Dep>, rest': seq<string>)
    requires NotLed(rest, "dep") && NotLed(rest', "dep")
    requires DepsTokens(ds) + rest == DepsTokens(es) + rest'
    ensures ds == es && rest == rest'
  {
    assert DepsTokens([]) + rest == rest && DepsTokens([]) + rest' == rest';
    if ds != [] { DepsHead(ds, rest); }
    if es != [] { DepsHead(es, rest'); }
    if ds == [] || es == [] {
    } else {
      var d, e := ds[0], es[0];
      Cancel(DepTokens(d), DepsTokens(ds[1..]) + rest, DepTokens(e), DepsTokens(es[1..]) + rest');
      assert DepTokens(d)[1..] == [d.project, d.version, d.hash];
      assert DepTokens(e)[1..] == [e.project, e.version, e.hash];
      DepsApart(ds[1..], rest, es[1..], rest');
      assert ds == [d] + ds[1..] && es == [e] + es[1..];
    }
  }

  /** The names agree, and every name has the same values up to order. */
  ghost predicate SameVariants(names: seq<string>, v: map<string, seq<string>>,
                               names': seq<string>, w: map<string, seq<string>>)
    requires forall n :: n in names ==> n in v
    requires forall n :: n in names' ==> n in w
  {
    names == names' && forall n :: n in names ==> multiset(v[n]) == multiset(w[n])
  }

  lemma VariantApart(n: string, vs: seq<string>, more: seq<string>,
                     m: string, ws: seq<string>, more': seq<string>)
    requires VariantTokens(n, vs) + more == VariantTokens(m, ws) + more'
    ensures n == m && multiset(vs) == multiset(ws) && more == more'
  {
    var s := VariantTokens(n, vs) + more;
    var s' := VariantTokens(m, ws) + more';
    assert s[1] == n && s'[1] == m;
    assert s[2] == Itoa(|vs|) && s'[2] == Itoa(|ws|);
    NumeralItoa(|vs|);
    NumeralItoa(|ws|);
    Cancel(VariantTokens(n, vs), more, VariantTokens(m, ws), more');
    assert VariantTokens(n, vs)[3..] == Sort(vs, Le) && VariantTokens(m, ws)[3..] == Sort(ws, Le);
    SortStrings(vs, ws);
  }

  lemma VariantsHead(names: seq<string>, v: map<string, seq<string>>, rest: seq<string>)
    requires names != [] && forall n :: n in names ==> n in v
    ensures VariantsTokens(names, v) + rest
         == VariantTokens(names[0], v[names[0]]) + (VariantsTokens(names[1..], v) + rest)
    ensures !NotLed(VariantsTokens(names, v) + rest, "var")
  {
  }

  lemma NoVariantsLead(names: seq<string>, v: map<string, seq<string>>, rest: seq<string>)
    requires forall n :: n in names ==> n in v
    ensures names == [] ==> VariantsTokens(names, v) + rest == rest
  {
  }

  lemma {:induction false} VariantsApart(names: seq<string>, v: map<string, seq<string>>, rest: seq<string>,
                                         names': seq<string>, w: map<string, seq<string>>, rest': seq<string>)
    requires forall n :: n in names ==> n in v
    requires forall n :: n in names' ==> n in w
    requires NotLed(rest, "var") && NotLed(rest', "var")
    requires VariantsTokens(names, v) + rest == VariantsTokens(names', w) + rest'
    ensures SameVariants(names, v, names', w) && rest == rest'
  {
    hide VariantTokens, VariantsTokens;
    NoVariantsLead(names, v, rest);
    NoVariantsLead(names', w, rest');
    if names != [] { VariantsHead(names, v, rest); }
    if names' != [] { VariantsHead(names', w, rest'); }
    if names == [] || names' == [] {
    } else {
      var n, m := names[0], names'[0];
      VariantApart(n, v[n], VariantsTokens(names[1..], v) + rest,
                   m, w[m], VariantsTokens(names'[1..], w) + rest');
      VariantsApart(names[1..], v, rest, names'[1..], w, rest');
      assert names == [n] + names[1..] && names' == [m] + names'[1..];
    }
  }

  lemma {:induction false} VariantsAgree(names: seq<string>, v: map<string, seq<string>>, w: map<string, seq<string>>)
    requires forall n :: n in names ==> n in v && n in w && multiset(v[n]) == multiset(w[n])
    ensures VariantsTokens(names, v) == VariantsTokens(names, w)
  {
    if names == [] {
    } else {
      var n := names[0];
      SortStrings(v[n], w[n]);
      assert |v[n]| == |multiset(v[n])| == |multiset(w[n])| == |w[n]|;
      VariantsAgree(names[1..], v, w);
    }
  }

  /** What follows the dependencies starts with neither an earlier tag. */
  lemma TailLeads(c: Concrete)
    ensures NotLed(Tail(c), "dep") && NotLed(Tail(c), "var") && NotLed(Tail(c), "platform")
    ensures NotLed(Optional("graft", c.graft), "recipe")
  {
  }

  lemma DepsLead(ds: seq<Dep>, c: Concrete)
    ensures NotLed(DepsTokens(ds) + Tail(c), "var") && NotLed(DepsTokens(ds) + Tail(c), "platform")
  {
    TailLeads(c);
    if ds != [] { DepsHead(ds, Tail(c)); } else { assert DepsTokens(ds) + Tail(c) == Tail(c); }
  }

  lemma VariantsLead(variants: map<string, seq<string>>, rest: seq<string>)
    requires NotLed(rest, "platform")
    ensures NotLed(AllVariantTokens(variants) + rest, "platform")
  {
    AscendingMembers(variants.Keys);
    var names := Ascending(variants.Keys);
    if names != [] { VariantsHead(names, variants, rest); }
    else { assert AllVariantTokens(variants) + rest == rest; }
  }

  lemma TailInjective(a: Concrete, b: Concrete)
    requires Tail(a) == Tail(b)
    ensures a.recipe == b.recipe && a.graft == b.graft
  {
    TailLeads(a);
    TailLeads(b);
    OptionalApart("recipe", a.recipe, Optional("graft", a.graft), b.recipe, Optional("graft", b.graft));
    assert Optional("graft", a.graft) + [] == Optional("graft", a.graft);
    assert Optional("graft", b.graft) + [] == Optional("graft", b.graft);
    OptionalApart("graft", a.graft, [], b.graft, []);
  }

  lemma SortedKeysAgree(a: map<string, seq<string>>, b: map<string, seq<string>>)
    requires Ascending(a.Keys) == Ascending(b.Keys)
    ensures a.Keys == b.Keys
  {
    AscendingMembers(a.Keys);
    AscendingMembers(b.Keys);
    hide Ascending;
    forall n ensures n in a.Keys <==> n in b.Keys {
      assert n in a.Keys <==> n in Ascending(a.Keys);
    }
  }

  lemma TokensInjective(a: Concrete, b: Concrete)
    requires Tokens(a) == Tokens(b)
    ensures SameBuild(a, b)
  {
    hide Optional, VariantsTokens, DepsTokens, Tail, Sort, Ascending;
    var da, db := Sort(a.deps, DepLe), Sort(b.deps, DepLe);
    var ra, rb := DepsTokens(da) + Tail(a), DepsTokens(db) + Tail(b);
    DepsLead(da, a);
    DepsLead(db, b);
    VariantsLead(a.variants, ra);
    VariantsLead(b.variants, rb);
    OptionalApart("platform", a.platform, AllVariantTokens(a.variants) + ra,
                  b.platform, AllVariantTokens(b.variants) + rb);
    AscendingMembers(a.variants.Keys);
    AscendingMembers(b.variants.Keys);
    VariantsApart(Ascending(a.variants.Keys), a.variants, ra, Ascending(b.variants.Keys), b.variants, rb);
    TailLeads(a);
    TailLeads(b);
    DepsApart(da, Tail(a), db, Tail(b));
    TailInjective(a, b);
    SortDeps(a.deps, b.deps);
    SortedKeysAgree(a.variants, b.variants);
  }

  /** One build, one form; two builds, two forms. The bytes in the fields are
      arbitrary: separators, colons and digits included. */
  lemma CanonicalInjective(a: Concrete, b: Concrete)
    ensures CanonicalForm(a) == CanonicalForm(b) <==> SameBuild(a, b)
  {
    if CanonicalForm(a) == CanonicalForm(b) {
      assert CanonicalForm(a)[2..] == Encode(Tokens(a));
      assert CanonicalForm(b)[2..] == Encode(Tokens(b));
      DecodeEncode(Tokens(a));
      DecodeEncode(Tokens(b));
      TokensInjective(a, b);
    }
    if SameBuild(a, b) {
      SortDeps(a.deps, b.deps);
      AscendingMembers(a.variants.Keys);
      VariantsAgree(Ascending(a.variants.Keys), a.variants, b.variants);
    }
  }

  // ----- the builder that renders it ----------------------------------------

  class Builder {
    var text: string

    constructor ()
      ensures text == ""
    {
      text := "";
    }

    method WriteString(s: string)
      modifies this
      ensures text == old(text) + s
    {
      text := text + s;
    }

    /** Writes each part as one length-prefixed token. */
    method Field(parts: seq<string>)
      modifies this
      ensures text == old(text) + Encode(parts)
    {
      hide *;
      var i := 0;
      EncodeNone();
      assert parts[..0] == [];
      while i < |parts|
        invariant 0 <= i <= |parts|
        invariant text == old(text) + Encode(parts[..i])
      {
        var p := parts[i];
        ghost var at := text;
        TokenIs(p);
        WriteString([CANON_SEP]);
        WriteString(Itoa(|p|));
        WriteString(":");
        WriteString(p);
        assert text == at + Token(p);
        EncodeSnoc(parts, i);
        i := i + 1;
      }
      assert parts[..i] == parts;
    }
  }

  lemma {:induction false} VariantsTokensAppend(names: seq<string>, more: seq<string>, v: map<string, seq<string>>)
    requires forall m :: m in names + more ==> m in v
    ensures VariantsTokens(names + more, v) == VariantsTokens(names, v) + VariantsTokens(more, v)
  {
    if names == [] {
      assert names + more == more;
    } else {
      assert (names + more)[1..] == names[1..] + more;
      VariantsTokensAppend(names[1..], more, v);
    }
  }

  lemma EncodeVariantsSnoc(names: seq<string>, i: nat, v: map<string, seq<string>>)
    requires i < |names| && forall m :: m in names ==> m in v
    ensures Encode(VariantsTokens(names[..i + 1], v))
         == Encode(VariantsTokens(names[..i], v)) + Encode(VariantTokens(names[i], v[names[i]]))
  {
    var n := names[i];
    assert names[..i + 1] == names[..i] + [n];
    VariantsTokensAppend(names[..i], [n], v);
    assert VariantsTokens([n], v) == VariantTokens(n, v[n]) + VariantsTokens([], v) == VariantTokens(n, v[n]);
    EncodeAppend(VariantsTokens(names[..i], v), VariantTokens(n, v[n]));
  }

  lemma {:induction false} DepsTokensAppend(ds: seq<Dep>, es: seq<Dep>)
    ensures DepsTokens(ds + es) == DepsTokens(ds) + DepsTokens(es)
  {
    if ds == [] {
      assert ds + es == es;
    } else {
      assert (ds + es)[1..] == ds[1..] + es;
      DepsTokensAppend(ds[1..], es);
    }
  }

  lemma EncodeDepsSnoc(ds: seq<Dep>, i: nat)
    requires i < |ds|
    ensures Encode(DepsTokens(ds[..i + 1])) == Encode(DepsTokens(ds[..i])) + Encode(DepTokens(ds[i]))
  {
    assert ds[..i + 1] == ds[..i] + [ds[i]];
    DepsTokensAppend(ds[..i], [ds[i]]);
    assert DepsTokens([ds[i]]) == DepTokens(ds[i]) + DepsTokens([]) == DepTokens(ds[i]);
    EncodeAppend(DepsTokens(ds[..i]), DepTokens(ds[i]));
  }

  lemma EncodeOne(vals: seq<string>, k: nat)
    requires k < |vals|
    ensures Encode(vals[..k]) + Encode([vals[k]]) == Encode(vals[..k + 1])
  {
    assert vals[..k + 1] == vals[..k] + [vals[k]];
    EncodeAppend(vals[..k], [vals[k]]);
  }

  lemma VariantIs(name: string, values: seq<string>)
    ensures VariantTokens(name, values) == ["var", name, Itoa(|Sort(values, Le)|)] + Sort(values, Le)
  {
  }

  lemma VariantsNone(names: seq<string>, variants: map<string, seq<string>>)
    requires forall n :: n in names ==> n in variants
    ensures Encode(VariantsTokens(names[..0], variants)) == ""
  {
  }

  lemma DepsNone(deps: seq<Dep>)
    ensures Encode(DepsTokens(deps[..0])) == ""
  {
  }

  method WriteValues(b: Builder, vals: seq<string>)
    modifies b
    ensures b.text == old(b.text) + Encode(vals)
  {
    hide *;
    ghost var at := b.text;
    var k := 0;
    EncodeNone();
    assert vals[..0] == [];
    while k < |vals|
      invariant 0 <= k <= |vals|
      invariant b.text == at + Encode(vals[..k])
    {
      b.Field([vals[k]]);
      EncodeOne(vals, k);
      k := k + 1;
    }
    assert vals[..k] == vals;
  }

  method WriteVariant(b: Builder, name: string, values: seq<string>)
    modifies b
    ensures b.text == old(b.text) + Encode(VariantTokens(name, values))
  {
    hide *;
    var vals := Sort(values, Le);
    var head := ["var", name, Itoa(|vals|)];
    VariantIs(name, values);
    b.Field(head);
    WriteValues(b, vals);
    EncodeAppend(head, vals);
  }

  method WriteVariants(b: Builder, variants: map<string, seq<string>>)
    modifies b
    ensures b.text == old(b.text) + Encode(AllVariantTokens(variants))
  {
    var names := SortedKeys(variants);
    AscendingMembers(variants.Keys);
    WriteNamed(b, names, variants);
  }

  method WriteNamed(b: Builder, names: seq<string>, variants: map<string, seq<string>>)
    requires forall n :: n in names ==> n in variants
    modifies b
    ensures b.text == old(b.text) + Encode(VariantsTokens(names, variants))
  {
    hide *;
    ghost var at := b.text;
    var i := 0;
    VariantsNone(names, variants);
    while i < |names|
      invariant 0 <= i <= |names|
      invariant b.text == at + Encode(VariantsTokens(names[..i], variants))
    {
      WriteVariant(b, names[i], variants[names[i]]);
      EncodeVariantsSnoc(names, i, variants);
      i := i + 1;
    }
    assert names[..i] == names;
  }

  method WriteDeps(b: Builder, deps: seq<Dep>)
    modifies b
    ensures b.text == old(b.text) + Encode(DepsTokens(Sort(deps, DepLe)))
  {
    hide *;
    var sorted := Sort(deps, DepLe);
    ghost var at := b.text;
    var i := 0;
    DepsNone(sorted);
    while i < |sorted|
      invariant 0 <= i <= |sorted|
      invariant b.text == at + Encode(DepsTokens(sorted[..i]))
    {
      b.Field(DepTokens(sorted[i]));
      EncodeDepsSnoc(sorted, i);
      i := i + 1;
    }
    assert sorted[..i] == sorted;
  }

  method WriteOptional(b: Builder, tag: string, value: string)
    modifies b
    ensures b.text == old(b.text) + Encode(Optional(tag, value))
  {
    if value != "" { b.Field([tag, value]); }
  }

  lemma EncodeFive(a: seq<string>, b: seq<string>, c: seq<string>, d: seq<string>, e: seq<string>)
    ensures Encode(a + (b + (c + (d + e)))) == Encode(a) + Encode(b) + Encode(c) + Encode(d) + Encode(e)
  {
    hide Encode;
    EncodeAppend(a, b + (c + (d + e)));
    EncodeAppend(b, c + (d + e));
    EncodeAppend(c, d + e);
    EncodeAppend(d, e);
    Gather(Encode(a), Encode(b), Encode(c), Encode(d), Encode(e));
  }

  lemma Gather(a: string, b: string, c: string, d: string, e: string)
    ensures a + (b + (c + (d + e))) == a + b + c + d + e
  {
    assert b + (c + (d + e)) == b + c + (d + e);
  }

  lemma GatherAfter(p: string, a: string, b: string, c: string, d: string, e: string)
    ensures p + a + b + c + d + e == p + (a + b + c + d + e)
  {
  }

  method WriteParts(b: Builder, c: Concrete)
    modifies b
    ensures b.text == old(b.text) + Encode(Tokens(c))
  {
    hide *;
    ghost var at := b.text;
    WriteOptional(b, "platform", c.platform);
    WriteVariants(b, c.variants);
    WriteDeps(b, c.deps);
    WriteOptional(b, "recipe", c.recipe);
    WriteOptional(b, "graft", c.graft);
    GatherAfter(at, Encode(Optional("platform", c.platform)), Encode(AllVariantTokens(c.variants)),
           Encode(DepsTokens(Sort(c.deps, DepLe))), Encode(Optional("recipe", c.recipe)),
           Encode(Optional("graft", c.graft)));
    TokensAre(c);
    EncodeFive(Optional("platform", c.platform), AllVariantTokens(c.variants),
               DepsTokens(Sort(c.deps, DepLe)), Optional("recipe", c.recipe), Optional("graft", c.graft));
  }

  lemma TokensAre(c: Concrete)
    ensures Tokens(c) == Optional("platform", c.platform)
      + (AllVariantTokens(c.variants)
         + (DepsTokens(Sort(c.deps, DepLe)) + (Optional("recipe", c.recipe) + Optional("graft", c.graft))))
  {
    hide Optional, AllVariantTokens, DepsTokens, Sort;
  }

  /** Renders a spec as the exact bytes that are hashed. */
  method Canonical(c: Concrete) returns (text: string)
    ensures text == CanonicalForm(c)
  {
    var b := new Builder();
    b.WriteString("v1");
    assert b.text == "v1";
    WriteParts(b, c);
    text := b.text;
  }

  // ----- the bytes themselves ------------------------------------------------------------

  lemma SortTwo<T(!new)>(x: T, y: T, le: (T, T) -> bool)
    requires le(x, y) && !le(y, x)
    ensures Sort([x, y], le) == [x, y] == Sort([y, x], le)
  {
    assert [x, y][..1] == [x] && [y, x][..1] == [y] && [x][..0] == [] && [y][..0] == [];
    assert Sort([x], le) == [x] && Sort([y], le) == [y];
    assert [y][..0] == [] && Insert([y], x, le) == Insert([], x, le) + [y];
  }

  lemma SortOne<T>(x: T, le: (T, T) -> bool)
    ensures Sort([x], le) == [x]
  {
    assert [x][..0] == [];
  }

  /** A spec with one of everything, and what a reader of its bytes meets: each
      field after its name, in this order. */
  lemma FieldsInOrder(platform: string, name: string, value: string, d: Dep, recipe: string, graft: string)
    requires platform != "" && recipe != "" && graft != ""
    ensures
      var c := Concrete(platform, map[name := [value]], [d], recipe, graft);
      && CanonicalForm(c)[..2] == "v1"
      && Decode(CanonicalForm(c)[2..])
         == ["platform", platform, "var", name, "1", value, "dep", d.project, d.version, d.hash,
             "recipe", recipe, "graft", graft]
  {
    hide *;
    var c := Concrete(platform, map[name := [value]], [d], recipe, graft);
    FormIs(c);
    DecodeEncode(Tokens(c));
    TokensAre(c);
    OneVariant(name, value);
    SortOne(d, DepLe);
    OneDep(d);
    OptionalIs("platform", platform);
    OptionalIs("recipe", recipe);
    OptionalIs("graft", graft);
    assert Tokens(c) == ["platform", platform, "var", name, "1", value, "dep", d.project, d.version, d.hash,
                         "recipe", recipe, "graft", graft];
  }

  lemma FormIs(c: Concrete)
    ensures CanonicalForm(c)[..2] == "v1" && CanonicalForm(c)[2..] == Encode(Tokens(c))
    ensures CanonicalForm(c) == "v1" + Encode(Tokens(c))
  {
    hide Tokens, Encode;
  }

  lemma OptionalIs(tag: string, value: string)
    ensures Optional(tag, value) == if value == "" then [] else [tag, value]
  {
  }

  lemma OneDep(d: Dep)
    ensures DepsTokens([d]) == ["dep", d.project, d.version, d.hash]
  {
    assert [d][1..] == [] && DepsTokens([]) == [];
  }

  lemma OneVariant(name: string, value: string)
    ensures AllVariantTokens(map[name := [value]]) == ["var", name, "1", value]
  {
    var m := map[name := [value]];
    OneName(name);
    SortOne(value, Le);
    assert Itoa(1) == "1";
    assert m.Keys == {name};
    assert [name][1..] == [] && VariantsTokens([], m) == [];
    hide Ascending;
    assert VariantsTokens([name], m) == VariantTokens(name, m[name]) + [];
  }

  lemma OneName(name: string)
    ensures Ascending({name}) == [name]
  {
    AscendingMembers({name});
    SetListing(Ascending({name}), {name});
  }

  /** One token in bytes: a zero, the length in decimal, a colon, the text. */
  lemma TokenBytes(part: string)
    ensures Encode([part]) == ['\0'] + Itoa(|part|) + ":" + part
    ensures Itoa(7) == "7" && Itoa(12) == "12"
  {
    hide *;
    LengthsDecimal();
    TokenIs(part);
    SeparatorIs();
    EncodeToken(part);
  }

  lemma EncodeToken(part: string)
    ensures Encode([part]) == Token(part)
  {
    hide Token;
    EncodeNone();
    assert [part][1..] == [] && Encode([part]) == Token(part) + Encode([]);
  }

  /** Lengths are decimal. */
  lemma LengthsDecimal()
    ensures Itoa(7) == "7" && Itoa(12) == "12"
  {
    assert Itoa(12) == Itoa(1) + [Digit(2)];
  }

  lemma SeparatorIs()
    ensures CANON_SEP == '\0'
  {
  }

  /** Values and dependencies are written in ascending order, however listed. */
  lemma ListsAscend(name: string, d: Dep, e: Dep)
    requires d.project == "a" && e.project == "b"
    ensures AllVariantTokens(map[name := ["b", "a"]]) == ["var", name, "2", "a", "b"]
    ensures DepsTokens(Sort([e, d], DepLe)) == ["dep", "a", d.version, d.hash, "dep", "b", e.version, e.hash]
  {
    var m := map[name := ["b", "a"]];
    OneName(name);
    assert Le("a", "b") && !Le("b", "a");
    SortTwo("a", "b", Le);
    SortTwo(d, e, DepLe);
    assert Itoa(2) == "2" && m.Keys == {name};
    assert [name][1..] == [] && VariantsTokens([], m) == [];
    hide Ascending, Sort;
    assert VariantsTokens([name], m) == VariantTokens(name, m[name]) + [];
    assert [d, e][1..] == [e];
    OneDep(e);
  }

  // ----- the address --------------------------------------------------------

  const HASH_LEN := 16

  /** The spec's address under a digest rendered in lower-case base32. */
  ghost function Hash(c: Concrete, digest: string -> string): string
    requires forall s :: |digest(s)| >= HASH_LEN
  {
    if c.IsZero() then "" else digest(CanonicalForm(c))[..HASH_LEN]
  }

  /** Two recorded specs whose forms the digest's first characters confuse. */
  ghost predicate Collide(a: Concrete, b: Concrete, digest: string -> string)
    requires forall s :: |digest(s)| >= HASH_LEN
  {
    && !a.IsZero() && !b.IsZero() && CanonicalForm(a) != CanonicalForm(b)
    && digest(CanonicalForm(a))[..HASH_LEN] == digest(CanonicalForm(b))[..HASH_LEN]
  }

  /** Two specs share an address exactly when they are one build or the digest
      confuses their forms. */
  lemma HashDecides(a: Concrete, b: Concrete, digest: string -> string)
    requires forall s :: |digest(s)| >= HASH_LEN
    ensures Hash(a, digest) == Hash(b, digest) <==> SameBuild(a, b) || Collide(a, b, digest)
    ensures |Hash(a, digest)| == if a == Concrete("", map[], [], "", "") then 0 else 16
  {
    hide CanonicalForm;
    CanonicalInjective(a, b);
    if SameBuild(a, b) {
      assert |multiset(a.deps)| == |a.deps| && |multiset(b.deps)| == |b.deps|;
      assert a.variants == map[] <==> a.variants.Keys == {};
      assert b.variants == map[] <==> b.variants.Keys == {};
    }
    if a.IsZero() && b.IsZero() { assert a == b; }
  }

  /** Among any specs, addresses are equal exactly on equal builds if and only
      if the digest confuses none of their forms. */
  lemma HashIdentifies(specs: set<Concrete>, digest: string -> string)
    requires forall s :: |digest(s)| >= HASH_LEN
    ensures (forall a, b :: a in specs && b in specs ==> (Hash(a, digest) == Hash(b, digest) <==> SameBuild(a, b)))
      <==> forall a, b :: a in specs && b in specs ==> !Collide(a, b, digest)
  {
    hide Hash, Collide, SameBuild;
    forall a, b ensures Hash(a, digest) == Hash(b, digest) <==> SameBuild(a, b) || Collide(a, b, digest) {
      HashDecides(a, b, digest);
    }
    forall a, b ensures Collide(a, b, digest) ==> !SameBuild(a, b) { CollideApart(a, b, digest); }
  }

  lemma CollideApart(a: Concrete, b: Concrete, digest: string -> string)
    requires forall s :: |digest(s)| >= HASH_LEN
    ensures Collide(a, b, digest) ==> !SameBuild(a, b)
  {
    hide CanonicalForm, SameBuild;
    CanonicalInjective(a, b);
  }
}
