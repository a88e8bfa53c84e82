/**
 * `configureAxe` and the option handling of `axe`: `globalOptions` is
 * split off the configuration (the compiled `__rest` helper), and the
 * remaining runner options are merged with each call's options.
 */
module Options {
  import opened Wrappers
  import opened JsValues

  /** `e.indexOf(p) >= 0`: the excluded names are strings, so a symbol is never excluded. */
  predicate Excluded(k: PropertyKey, e: seq<string>)
  {
    k.Name? && k.name in e
  }

  /** The copy `t[p] = s[p]` makes: same key and value, enumerable. */
  function Copy(p: Property): Property
  {
    Property(p.key, p.value, true)
  }

  /** Whether `__rest` copies `p` in its pass over names (`symbols` false) or over symbols (`symbols` true). */
  predicate Copied(p: Property, e: seq<string>, symbols: bool)
  {
    p.enumerable && !Excluded(p.key, e) && p.key.Symbol? == symbols
  }

  /** The copies one pass of `__rest` makes over `s`, in order. */
  function CopiesOf(s: JsObject, e: seq<string>, symbols: bool): JsObject
  {
    if s == [] then []
    else (if Copied(s[0], e, symbols) then [Copy(s[0])] else []) + CopiesOf(s[1..], e, symbols)
  }

  /** `Object.getOwnPropertySymbols(s)`: the symbol-keyed own properties, enumerable or not. */
  function OwnSymbols(s: JsObject): JsObject
  {
    if s == [] then []
    else (if s[0].key.Symbol? then [s[0]] else []) + OwnSymbols(s[1..])
  }

  /** The object `__rest(s, e)` builds: the name pass, then the symbol pass. */
  function RestOf(s: JsObject, e: seq<string>): JsObject
  {
    CopiesOf(s, e, false) + CopiesOf(OwnSymbols(s), e, true)
  }

  lemma {:induction false} CopiesOfAppend(s: JsObject, p: Property, e: seq<string>, symbols: bool)
    ensures CopiesOf(s + [p], e, symbols) == CopiesOf(s, e, symbols) + CopiesOf([p], e, symbols)
  {
    if s != [] {
      assert (s + [p])[1..] == s[1..] + [p];
      CopiesOfAppend(s[1..], p, e, symbols);
    } else {
      assert s + [p] == [p];
    }
  }

  /**
   * `__rest(s, e)`: a fresh object holding every own enumerable property
   * of `s` whose key is not in `e` — string names first, in order, then
   * symbols.
   */
  method Rest(s: JsObject, e: seq<string>) returns (t: JsObject)
    ensures t == RestOf(s, e)
  {
    t := [];
    // First pass: own enumerable string-keyed properties whose name is not excluded.
    for i := 0 to |s|
      invariant t == CopiesOf(s[..i], e, false)
    {
      CopiesOfAppend(s[..i], s[i], e, false);
      assert s[..i + 1] == s[..i] + [s[i]];
      if s[i].key.Name? && s[i].enumerable && !Excluded(s[i].key, e) {
        t := t + [Copy(s[i])];
      }
    }
    assert s[..|s|] == s;
    // Second pass: own enumerable symbol-keyed properties.
    var names := t;
    var p := OwnSymbols(s);
    for i := 0 to |p|
      invariant t == names + CopiesOf(p[..i], e, true)
    {
      CopiesOfAppend(p[..i], p[i], e, true);
      assert p[..i + 1] == p[..i] + [p[i]];
      assert p[i].key.Symbol? by {
        OwnSymbolsAreSymbols(s, p[i]);
      }
      if !Excluded(p[i].key, e) && p[i].enumerable {
        t := t + [Copy(p[i])];
      }
    }
    assert p[..|p|] == p;
  }

  lemma {:induction false} OwnSymbolsAreSymbols(s: JsObject, q: Property)
    requires q in OwnSymbols(s)
    ensures q.key.Symbol?
  {
    if s != [] && q !in (if s[0].key.Symbol? then [s[0]] else []) {
      OwnSymbolsAreSymbols(s[1..], q);
    }
  }

  /** Lookup in OwnSymbols: the same as in `s` for a symbol, nothing for a name. */
  lemma {:induction false} GetOwnSymbols(s: JsObject, k: PropertyKey)
    ensures Get(OwnSymbols(s), k) == if k.Symbol? then Get(s, k) else None
  {
    if s != [] {
      var head := if s[0].key.Symbol? then [s[0]] else [];
      GetConcat(head, OwnSymbols(s[1..]), k);
      GetOwnSymbols(s[1..], k);
    }
  }

  lemma {:induction false} OwnSymbolsWellFormed(s: JsObject)
    requires WellFormed(s)
    ensures WellFormed(OwnSymbols(s))
  {
    if s != [] {
      OwnSymbolsWellFormed(s[1..]);
      GetOwnSymbols(s[1..], s[0].key);
      if s[0].key.Symbol? {
        assert OwnSymbols(s) == [s[0]] + OwnSymbols(s[1..]);
        assert OwnSymbols(s)[1..] == OwnSymbols(s[1..]);
      } else {
        assert OwnSymbols(s) == OwnSymbols(s[1..]);
      }
    }
  }

  /** Lookup in one pass of `__rest`: the copy of the property if that pass copies it. */
  lemma {:induction false} GetCopiesOf(s: JsObject, e: seq<string>, symbols: bool, k: PropertyKey)
    requires WellFormed(s)
    ensures Get(CopiesOf(s, e, symbols), k) ==
      match Get(s, k)
      case Some(p) => if Copied(p, e, symbols) then Some(Copy(p)) else None
      case None => None
  {
    if s != [] {
      var head := if Copied(s[0], e, symbols) then [Copy(s[0])] else [];
      GetConcat(head, CopiesOf(s[1..], e, symbols), k);
      GetCopiesOf(s[1..], e, symbols, k);
    }
  }

  /**
   * The object `__rest(s, e)` returns has, under every key, the copy of
   * the own enumerable property of `s` with that key unless the key is
   * excluded, and nothing else.
   */
  lemma RestKeepsExactly(s: JsObject, e: seq<string>, k: PropertyKey)
    requires WellFormed(s)
    ensures Get(RestOf(s, e), k) ==
      match Get(s, k)
      case Some(p) => if p.enumerable && !Excluded(k, e) then Some(Copy(p)) else None
      case None => None
  {
    GetConcat(CopiesOf(s, e, false), CopiesOf(OwnSymbols(s), e, true), k);
    GetCopiesOf(s, e, false, k);
    OwnSymbolsWellFormed(s);
    GetCopiesOf(OwnSymbols(s), e, true, k);
    GetOwnSymbols(s, k);
    GetHasKey(s, k);
  }

  /** What `axeCore.configure` receives: the given `globalOptions`, or `{}`. */
  datatype GlobalSpec = EmptySpec | Spec(value: JsValue)

  /** The state `configureAxe` closes over. */
  datatype AxeConfig = AxeConfig(globalOptions: GlobalSpec, runnerOptions: JsObject)

  const GlobalOptionsKey: PropertyKey := Name("globalOptions")

  /** `const { globalOptions = {} } = options`: the default applies when the property is missing or undefined. */
  function GlobalOptionsOf(options: JsObject): GlobalSpec
  {
    match Get(options, GlobalOptionsKey)
    case Some(p) => if p.value == Undefined then EmptySpec else Spec(p.value)
    case None => EmptySpec
  }

  /**
   * `configureAxe(options = {})`: `globalOptions` goes to the engine's
   * global configuration, the rest of the options are kept for every run.
   */
  method ConfigureAxe(options: Option<JsObject>) returns (cfg: AxeConfig)
    ensures cfg.globalOptions == GlobalOptionsOf(options.GetOr([]))
    ensures Get(cfg.runnerOptions, GlobalOptionsKey) == None
    ensures cfg.runnerOptions == RestOf(options.GetOr([]), ["globalOptions"])
  {
    var opts := if options.Some? then options.value else [];
    var rest := Rest(opts, ["globalOptions"]);
    cfg := AxeConfig(GlobalOptionsOf(opts), rest);
    GetConcat(CopiesOf(opts, ["globalOptions"], false), CopiesOf(OwnSymbols(opts), ["globalOptions"], true), GlobalOptionsKey);
    CopiesOmitExcluded(opts, ["globalOptions"], false, GlobalOptionsKey);
    CopiesOmitExcluded(OwnSymbols(opts), ["globalOptions"], true, GlobalOptionsKey);
  }

  /** An excluded key is never copied, whatever the shape of the object. */
  lemma {:induction false} CopiesOmitExcluded(s: JsObject, e: seq<string>, symbols: bool, k: PropertyKey)
    requires Excluded(k, e)
    ensures Get(CopiesOf(s, e, symbols), k) == None
  {
    if s != [] {
      var head := if Copied(s[0], e, symbols) then [Copy(s[0])] else [];
      GetConcat(head, CopiesOf(s[1..], e, symbols), k);
      CopiesOmitExcluded(s[1..], e, symbols, k);
    }
  }

  /** Options as the engine sees them: enumerable string-keyed properties. */
  type EngineOptions = map<string, JsValue>

  /** The enumerable string-keyed properties of an object; the first one wins on a repeated key. */
  function Enumerables(o: JsObject): EngineOptions
  {
    if o == [] then map[]
    else
      var rest := Enumerables(o[1..]);
      if !o[0].key.Name? then rest
      else if o[0].enumerable then rest[o[0].key.name := o[0].value]
      else rest - {o[0].key.name}
  }

  lemma {:induction false} EnumerablesGet(o: JsObject, name: string)
    ensures name in Enumerables(o) <==> Get(o, Name(name)).Some? && Get(o, Name(name)).value.enumerable
    ensures name in Enumerables(o) ==> Enumerables(o)[name] == Get(o, Name(name)).value.value
  {
    if o != [] {
      EnumerablesGet(o[1..], name);
    }
  }

  /**
   * `merge({}, runnerOptions, additionalOptions)`, with the deep merge
   * reduced to key override: every key of either side is kept, and on a
   * collision the per-call option wins.
   */
  function MergeOptions(runnerOptions: JsObject, additionalOptions: JsObject): (m: EngineOptions)
    ensures m.Keys == Enumerables(runnerOptions).Keys + Enumerables(additionalOptions).Keys
    ensures forall k :: k in Enumerables(additionalOptions) ==> m[k] == Enumerables(additionalOptions)[k]
    ensures forall k :: k in Enumerables(runnerOptions) && k !in Enumerables(additionalOptions) ==>
      m[k] == Enumerables(runnerOptions)[k]
  {
    Enumerables(runnerOptions) + Enumerables(additionalOptions)
  }

  /**
   * The options handed to the engine hold `globalOptions` only when the
   * call itself passes one: the configured one never gets through.
   */
  lemma GlobalOptionsNeverForwarded(options: JsObject, additionalOptions: JsObject)
    requires WellFormed(options)
    ensures "globalOptions" in MergeOptions(RestOf(options, ["globalOptions"]), additionalOptions)
        <==> "globalOptions" in Enumerables(additionalOptions)
  {
    RestKeepsExactly(options, ["globalOptions"], GlobalOptionsKey);
    EnumerablesGet(RestOf(options, ["globalOptions"]), "globalOptions");
  }

  /** Every other enumerable option given to `configureAxe` reaches the engine unless the call overrides it. */
  lemma RunnerOptionsForwarded(options: JsObject, additionalOptions: JsObject, name: string)
    requires WellFormed(options)
    requires name != "globalOptions" && name !in Enumerables(additionalOptions)
    requires name in Enumerables(options)
    ensures name in MergeOptions(RestOf(options, ["globalOptions"]), additionalOptions)
    ensures MergeOptions(RestOf(options, ["globalOptions"]), additionalOptions)[name] == Enumerables(options)[name]
  {
    EnumerablesGet(options, name);
    RestKeepsExactly(options, ["globalOptions"], Name(name));
    EnumerablesGet(RestOf(options, ["globalOptions"]), name);
  }
}
