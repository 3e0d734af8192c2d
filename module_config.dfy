/**
 The merging of the user's module settings into the bundler configuration
 (gemstone-config-webpack.js, lines 427-454): user aliases written over the
 built-in alias table (lines 203-209), user loader rules put in front of the
 seven built-in library rules (lines 228-285), and user provides written
 over the default provide table (lines 447-451).

 `require.resolve` is left abstract: a loader is named by the string
 `<key>-loader`. A rule's `test` stays the source text that `new RegExp`
 would compile.
 */
module ModuleConfig {

  /** One `{from, to}` alias or one `{name, require}` provide. */
  datatype Binding = Binding(key: string, value: string)

  /** One key of a user rule's `use` object and the options stored under it
      (kept as their text). */
  datatype UseEntry = UseEntry(name: string, options: string)

  /** A user loader rule: `test` and the keys of `use` in key order. */
  datatype UserRule = UserRule(test: string, use: seq<UseEntry>)

  /** `{loader, options}` as pushed at lines 435-438. */
  datatype LoaderUse = LoaderUse(loader: string, options: string)

  /** The seven built-in library rules, in their order at lines 228-285. */
  datatype BuiltinRule =
    | JsParser     // line 228: `.js`, AMD off, CommonJS on
    | JsNoStrict   // line 239: `.js` post-loader removing strictness indicators
    | CssExtract   // line 246: `.css` through the text extractor
    | ImageFile    // line 253: `.jpg|.png|.gif` as lib-img files
    | SvgFile      // line 260: `.svg` as lib-img or lib-font files
    | FontFile     // line 276: `.eot|.woff|.woff2|.ttf` as lib-font files
    | RawFile      // line 283: `.txt|.bin` raw

  datatype LibRule = Builtin(rule: BuiltinRule) | Custom(test: string, uses: seq<LoaderUse>)

  /** `cfg.modules`: the three lists the merging reads. */
  datatype UserModules = UserModules(alias: seq<Binding>, rules: seq<UserRule>, provide: seq<Binding>)

  const BuiltinLibRules: seq<LibRule> := [
    Builtin(JsParser), Builtin(JsNoStrict), Builtin(CssExtract), Builtin(ImageFile),
    Builtin(SvgFile), Builtin(FontFile), Builtin(RawFile)
  ]

  const LoaderSuffix: string := "-loader"

  /** The built-in alias table; the framework bundle has a `.dev` variant
      outside production. */
  function DefaultAliases(env: string): map<string, string> {
    map[
      "gemstone$" := "gemstone-framework-frontend/dst/gemstone"
                     + (if env == "production" then "" else ".dev") + ".js",
      "gemstone.css$" := "gemstone-framework-frontend/dst/gemstone.css",
      "jquery$" := "gemstone-framework-frontend/lib/jquery",
      "vue$" := "gemstone-framework-frontend/lib/vue",
      "componentjs$" := "gemstone-framework-frontend/lib/componentjs"
    ]
  }

  const DefaultProvides: map<string, string> :=
    map["jQuery" := "jquery", "Vue" := "vue", "ComponentJS" := "componentjs"]

  /** `m[e.key] = e.value` for each entry in order. */
  function Overlay(m: map<string, string>, es: seq<Binding>): map<string, string>
    decreases |es|
  {
    if es == [] then m
    else Overlay(m, es[..|es| - 1])[es[|es| - 1].key := es[|es| - 1].value]
  }

  /** Some entry names `k`. */
  predicate Binds(es: seq<Binding>, k: string) {
    exists i | 0 <= i < |es| :: es[i].key == k
  }

  /** The position of the last entry naming `k`. */
  function LastIndex(es: seq<Binding>, k: string): (r: nat)
    requires Binds(es, k)
    ensures r < |es| && es[r].key == k
    ensures forall j | r < j < |es| :: es[j].key != k
    decreases |es|
  {
    if es[|es| - 1].key == k then |es| - 1
    else
      assert Binds(es[..|es| - 1], k) by {
        var i :| 0 <= i < |es| && es[i].key == k;
        assert es[..|es| - 1][i].key == k;
      }
      LastIndex(es[..|es| - 1], k)
  }

  /** The overlaid table keeps every default key, adds the keys the entries
      name, and maps each named key to its last entry's value and every other
      key to its default. */
  lemma {:induction false} OverlayAt(m: map<string, string>, es: seq<Binding>, k: string)
    ensures k in Overlay(m, es) <==> k in m || Binds(es, k)
    ensures Binds(es, k) ==> Overlay(m, es)[k] == es[LastIndex(es, k)].value
    ensures k in m && !Binds(es, k) ==> Overlay(m, es)[k] == m[k]
    decreases |es|
  {
    if es != [] {
      var init := es[..|es| - 1];
      OverlayAt(m, init, k);
      if es[|es| - 1].key != k {
        assert Binds(es, k) <==> Binds(init, k) by {
          if Binds(es, k) {
            var i :| 0 <= i < |es| && es[i].key == k;
            assert init[i].key == k;
          }
          if Binds(init, k) {
            var i :| 0 <= i < |init| && init[i].key == k;
            assert es[i].key == k;
          }
        }
      }
    }
  }

  /** No default key is lost, whatever the user entries are. */
  lemma OverlayKeepsKeys(m: map<string, string>, es: seq<Binding>)
    ensures m.Keys <= Overlay(m, es).Keys
  {
    forall k | k in m ensures k in Overlay(m, es) {
      OverlayAt(m, es, k);
    }
  }

  /** The `uses` list built at lines 433-439 for one rule's `use` object. */
  function LoaderUses(use: seq<UseEntry>): (uses: seq<LoaderUse>) {
    seq(|use|, i requires 0 <= i < |use| => LoaderUse(use[i].name + LoaderSuffix, use[i].options))
  }

  /** The rule object unshifted at lines 440-443. */
  function CustomRule(r: UserRule): LibRule {
    Custom(r.test, LoaderUses(r.use))
  }

  /** `base` after unshifting each rule of `rs` in order. */
  function Prepended(base: seq<LibRule>, rs: seq<UserRule>): seq<LibRule>
    decreases |rs|
  {
    if rs == [] then base
    else [CustomRule(rs[|rs| - 1])] + Prepended(base, rs[..|rs| - 1])
  }

  /** After `k` unshifts the list holds the user rules in reverse order, then
      `base` unchanged. */
  lemma {:induction false} PrependedShape(base: seq<LibRule>, rs: seq<UserRule>)
    ensures |Prepended(base, rs)| == |rs| + |base|
    ensures forall j | 0 <= j < |rs| :: Prepended(base, rs)[j] == CustomRule(rs[|rs| - 1 - j])
    ensures Prepended(base, rs)[|rs|..] == base
    decreases |rs|
  {
    if rs != [] {
      var init := rs[..|rs| - 1];
      PrependedShape(base, init);
      var p := Prepended(base, rs);
      assert p == [CustomRule(rs[|rs| - 1])] + Prepended(base, init);
      forall j | 0 <= j < |rs| ensures p[j] == CustomRule(rs[|rs| - 1 - j]) {
        if j > 0 {
          assert p[j] == Prepended(base, init)[j - 1];
          assert init[|init| - 1 - (j - 1)] == rs[|rs| - 1 - j];
        }
      }
      assert p[|rs|..] == Prepended(base, init)[|init|..];
    }
  }

  /** The `uses` loop of lines 433-439. */
  method BuildUses(use: seq<UseEntry>) returns (uses: seq<LoaderUse>)
    ensures |uses| == |use|
    ensures forall i | 0 <= i < |use| ::
      uses[i].loader == use[i].name + LoaderSuffix && uses[i].options == use[i].options
    ensures uses == LoaderUses(use)
  {
    uses := [];
    var i := 0;
    while i < |use|
      invariant 0 <= i <= |use|
      invariant |uses| == i
      invariant forall j | 0 <= j < i :: uses[j] == LoaderUse(use[j].name + LoaderSuffix, use[j].options)
    {
      uses := uses + [LoaderUse(use[i].name + LoaderSuffix, use[i].options)];
      i := i + 1;
    }
  }

  /** The provide table handed to the provide plugin (lines 447-455). */
  method CollectProvides(provide: seq<Binding>) returns (provideTable: map<string, string>)
    ensures provideTable == Overlay(DefaultProvides, provide)
  {
    provideTable := DefaultProvides;
    var i := 0;
    while i < |provide|
      invariant 0 <= i <= |provide|
      invariant provideTable == Overlay(DefaultProvides, provide[..i])
    {
      assert provide[..i + 1][..i] == provide[..i];
      provideTable := provideTable[provide[i].key := provide[i].value];
      i := i + 1;
    }
    assert provide[..i] == provide;
  }

  /** The parts of the configuration object that the merging changes: the
      alias table `resolve.alias` and the library rules
      `module.rules[0].rules`. */
  class WebpackConfig {
    var alias: map<string, string>
    var libRules: seq<LibRule>

    constructor (env: string)
      ensures alias == DefaultAliases(env) && libRules == BuiltinLibRules
    {
      alias := DefaultAliases(env);
      libRules := BuiltinLibRules;
    }

    /** Lines 427-429. */
    method AddAliases(aliases: seq<Binding>)
      modifies this
      ensures alias == Overlay(old(alias), aliases)
      ensures libRules == old(libRules)
    {
      var i := 0;
      while i < |aliases|
        invariant 0 <= i <= |aliases|
        invariant alias == Overlay(old(alias), aliases[..i])
        invariant libRules == old(libRules)
      {
        assert aliases[..i + 1][..i] == aliases[..i];
        alias := alias[aliases[i].key := aliases[i].value];
        i := i + 1;
      }
      assert aliases[..i] == aliases;
    }

    /** Lines 432-444. */
    method AddLoaderRules(rules: seq<UserRule>)
      modifies this
      ensures libRules == Prepended(old(libRules), rules)
      ensures alias == old(alias)
    {
      var i := 0;
      while i < |rules|
        invariant 0 <= i <= |rules|
        invariant libRules == Prepended(old(libRules), rules[..i])
        invariant alias == old(alias)
      {
        var uses := BuildUses(rules[i].use);
        assert rules[..i + 1][..i] == rules[..i];
        libRules := [Custom(rules[i].test, uses)] + libRules;
        i := i + 1;
      }
      assert rules[..i] == rules;
    }
  }

  /** Lines 427-454 on a freshly assembled configuration: the alias and
      provide tables are the defaults overlaid by the user entries, and the
      library rules are the user rules, last first, then the seven built-ins
      in their order. */
  method MergeModules(env: string, modules: UserModules)
    returns (alias: map<string, string>, libRules: seq<LibRule>, provideTable: map<string, string>)
    ensures alias == Overlay(DefaultAliases(env), modules.alias)
    ensures provideTable == Overlay(DefaultProvides, modules.provide)
    ensures |libRules| == |modules.rules| + 7
    ensures libRules[|modules.rules|..] == BuiltinLibRules
    ensures forall j | 0 <= j < |modules.rules| ::
      libRules[j] == Custom(modules.rules[|modules.rules| - 1 - j].test,
                            LoaderUses(modules.rules[|modules.rules| - 1 - j].use))
  {
    var config := new WebpackConfig(env);
    config.AddAliases(modules.alias);
    config.AddLoaderRules(modules.rules);
    provideTable := CollectProvides(modules.provide);
    alias, libRules := config.alias, config.libRules;
    PrependedShape(BuiltinLibRules, modules.rules);
  }
}
