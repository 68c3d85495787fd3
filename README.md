# Vue `$mount` with the template compiler, modelled in Dafny

The full build of Vue (runtime plus compiler) wraps the runtime's
`Vue.prototype.$mount`. The wrapper:

1. normalises the mount target;
2. refuses to mount on `<html>` or `<body>`;
3. if the component has no `render` function, it picks a template string by a
   fixed precedence: a `#` selector looked up through a memoised
   `idToTemplate`, a literal string, a DOM node's `innerHTML`, or the mount
   target's own outer markup (`getOuterHTML`);
4. compiles that string and installs `render` and `staticRenderFns` on the
   options;
5. delegates to the runtime's `$mount`.

The model has four modules:

- `Dom` (dom.dfy): elements and the document as values, with JavaScript
  truthiness of strings, the DOM query as a map from selector to element,
  and `GetOuterHTML`.
- `TemplateCache` (template_cache.dfy): the memoised `idToTemplate`. The class
  `IdCache` holds the memo table as a `map` field and a `Lookup` method. Its
  specification is `LookupStep`. Lemmas over `Replay`, a run of lookups made
  against a DOM that may change between them, state the caching behaviour.
- `MountInterceptor` (mount.dfy): the `$mount` wrapper as an imperative method
  `Component.Mount`. It sets `el` once from the target, as line 27 does. It
  reassigns the local `template` with the lookup result, the node's
  `innerHTML` or the target's outer markup, as lines 48, 59 and 68 do. It
  writes `options.render` and `options.staticRenderFns` in place, calls
  `IdCache.Lookup`, and returns a ghost log of the calls it made to the
  compiler and to the runtime's `$mount`. `MountSpec` is the function it is
  proved against.
- `MountProperties` (mount_properties.dfy): one lemma per promise of `$mount`,
  stated over `MountSpec`.

The template compiler `compileToFunctions` is a function parameter of type
`(string, CompilerOptions) -> Compiled`. The detached-container serialisation
in `getOuterHTML` is a parameter `containerHTML`. The DOM at the time of a call
is a parameter `doc`. The runtime's `$mount` is not called. Instead the
outcome `Delegated(el, hydrating)` says that `$mount` returned what the
runtime's `$mount` returned for those arguments, and the log records the call.

An empty-string `template` is falsy at line 43, so control goes to line 66.
With an element target, the target's outer markup becomes the template
(lines 66-68). It is compiled (line 76) only when the truthiness test at line
70 finds it non-empty. With no element target, nothing is compiled.

## Model

| member | source | states |
|---|---|---|
| Dom.GetOuterHTML | src/platforms/web/entry-runtime-with-compiler.js:100-108 | the native `outerHTML` when it is truthy (then never empty); otherwise the serialisation of a clone inside a detached container; the element is a value and is not changed |
| Dom.Query | src/platforms/web/entry-runtime-with-compiler.js:17 | the DOM query yields an element exactly when the selector matches one, and then the element it matches; otherwise `null` |
| TemplateCache.IdToTemplate | src/platforms/web/entry-runtime-with-compiler.js:17-18 | the uncached lookup yields a value exactly when the selector matches an element, and that value is the element's `innerHTML` |
| TemplateCache.LookupStep | src/platforms/web/entry-runtime-with-compiler.js:15-19 | the memoised lookup returns the stored value on a hit and the DOM's value on a miss; afterwards the selector is stored with the returned value, no other entry changes, and the keys grow by exactly this selector |
| TemplateCache.LookupMatchesDom | src/platforms/web/entry-runtime-with-compiler.js:15-19 | while the DOM has not changed since the table was filled, the memoised lookup agrees with the uncached one and keeps every entry equal to the DOM's value |
| TemplateCache.RepeatLookup | src/platforms/web/entry-runtime-with-compiler.js:15-19 | a second lookup of the same selector returns the first one's value and leaves the table unchanged, even if the DOM changed in between |
| TemplateCache.Replay | src/platforms/web/entry-runtime-with-compiler.js:15-19 | a run of lookups yields one value per request |
| TemplateCache.ReplayHit | src/platforms/web/entry-runtime-with-compiler.js:15-19 | a selector already in the table is answered from the table at any later point of a run |
| TemplateCache.ReplayRepeats | src/platforms/web/entry-runtime-with-compiler.js:15-19 | within a run, any two lookups of the same selector return the same value, whatever the DOM did in between |
| TemplateCache.ReplayFirstLookupDecides | src/platforms/web/entry-runtime-with-compiler.js:15-19 | the value every later lookup of a selector returns is fixed by its first lookup: the stored value if there was one, else the DOM's value at that first request |
| TemplateCache.ReplayGrows | src/platforms/web/entry-runtime-with-compiler.js:15-19 | the table only grows: stored entries keep their values and every requested selector ends up stored |
| TemplateCache.IdCache.constructor | src/platforms/web/entry-runtime-with-compiler.js:15 | the memo table starts empty |
| TemplateCache.IdCache.Lookup | src/platforms/web/entry-runtime-with-compiler.js:15-19 | the returned value and the new table are those of `LookupStep` on the old table |
| MountInterceptor.TargetTruthy | src/platforms/web/entry-runtime-with-compiler.js:27 | defines the truthiness of `el` tested by `el &&` (line 27) and `else if (el)` (line 66): an element or a non-empty selector |
| MountInterceptor.TemplateTruthy | src/platforms/web/entry-runtime-with-compiler.js:43 | defines the truthiness of `template` tested at lines 43 and 70: never when absent, a string exactly when non-empty, always for a node, and the given truthiness for any other value |
| MountInterceptor.IsRootTarget | src/platforms/web/entry-runtime-with-compiler.js:31 | `el === document.body` or `el === document.documentElement`: an element matches by identity; `null` matches exactly when `<body>` or `<html>` does not exist; `undefined` and a selector never match |
| MountInterceptor.Normalize | src/platforms/web/entry-runtime-with-compiler.js:27 | a falsy target is kept as it is, an element is kept, and a selector becomes its matched element or `null`; the result is never a non-empty selector |
| MountInterceptor.Compilable | src/platforms/web/entry-runtime-with-compiler.js:70 | the resolved value is compiled exactly when it is a truthy string, and then that string is compiled |
| MountInterceptor.ResolveTemplate | src/platforms/web/entry-runtime-with-compiler.js:42-69 | a compiled template is never empty; the mount is abandoned exactly for a truthy template that is neither a string nor a node; the memo table changes only through the lookup of a `#` template |
| MountInterceptor.FromLookup | src/platforms/web/entry-runtime-with-compiler.js:48 | the value stored back into `template` is truthy exactly when the lookup found non-empty markup; a found string is kept as that string and `null` is falsy |
| MountInterceptor.CompilerOptionsFor | src/platforms/web/entry-runtime-with-compiler.js:76-82 | source ranges are emitted exactly outside production; the newline flags come from the environment; `delimiters` and `comments` come from the component options |
| MountInterceptor.MountSpec | src/platforms/web/entry-runtime-with-compiler.js:23-94 | `$mount` returns the component itself exactly when it calls nothing; otherwise it returns the runtime mount's result for the normalised target and the given `hydrating` |
| MountInterceptor.Component.Mount | src/platforms/web/entry-runtime-with-compiler.js:23-94 | the imperative wrapper, which reassigns `template` step by step, has a return value, call log, new options and new memo table equal to those of `MountSpec` on the state before the call |
| MountProperties.RootTargetAborts | src/platforms/web/entry-runtime-with-compiler.js:27-36 | a target that normalises to the very `<body>` or `<html>` element (same identity) returns the component with nothing compiled, nothing delegated, and options and table unchanged |
| MountProperties.NullTargetWithoutBodyAborts | src/platforms/web/entry-runtime-with-compiler.js:27-36 | while `document.body` is `null`, a target that normalises to `null` is refused: the component is returned with nothing called and options and table unchanged |
| MountProperties.RenderWins | src/platforms/web/entry-runtime-with-compiler.js:41 | with `render` already set, the only call is one delegation with the normalised target and `hydrating`; options and table are unchanged, and the `template` option makes no difference |
| MountProperties.HashTemplateIsSelector | src/platforms/web/entry-runtime-with-compiler.js:45-56 | a `#` template goes through the memoised lookup; only the lookup's value is compiled, and only when it is truthy; otherwise the mount still delegates without compiling |
| MountProperties.HashTemplateAgainstStaticDom | src/platforms/web/entry-runtime-with-compiler.js:15-19 | while the DOM matches the table, a `#` template compiles the matched element's `innerHTML`; a miss or empty markup compiles nothing; the table stays consistent |
| MountProperties.LiteralTemplateCompiledVerbatim | src/platforms/web/entry-runtime-with-compiler.js:45-48 | a non-empty string not starting with `#` is compiled unchanged, once, and the table is not consulted |
| MountProperties.InvalidTemplateAborts | src/platforms/web/entry-runtime-with-compiler.js:58-65 | a truthy template that is neither a string nor a node returns the component with nothing called and options and table unchanged |
| MountProperties.NodeTemplateCompilesInnerHTML | src/platforms/web/entry-runtime-with-compiler.js:58-59 | a node template compiles its `innerHTML`, or compiles nothing and still delegates when that is empty |
| MountProperties.FalsyTemplateUsesOuterHTML | src/platforms/web/entry-runtime-with-compiler.js:66-68 | a falsy template with an element target compiles the target's outer markup; with an empty outer markup or no element target nothing is compiled and the mount still delegates |
| MountProperties.ThreeOutcomes | src/platforms/web/entry-runtime-with-compiler.js:76-93 | every call ends in exactly one of three ways: abandoned with nothing changed; delegated with options untouched; or compiled once with a non-empty string, both results installed, then delegated; `template`, `delimiters` and `comments` never change |
| MountProperties.FalsyResolutionStillDelegates | src/platforms/web/entry-runtime-with-compiler.js:43-70 | the compiler is skipped and the runtime's `$mount` still called once, options untouched, exactly when the value tested at line 70 is falsy: a `#` lookup that finds nothing or empty markup, a node with empty `innerHTML`, or a falsy template with no element target or empty outer markup |

## Left out

- Warning messages and the `process.env.NODE_ENV` switches around them (lines 32-34, 50-55, 61-63). They do not change control flow. The build mode is kept only where it reaches the compiler, as `outputSourceRange`.
- Performance marks and measures (lines 72-74, 87-90): timing only.
- `Vue.compile = compileToFunctions` (line 110) is a re-export. The patching of `Vue.prototype.$mount` over the saved original (lines 22-23) is modelled as the method `Component.Mount`, which reports the delegation instead of calling it.
- The compiler is a total function parameter. A compile error, which `$mount` lets propagate, is not modelled. Neither is what the render functions do.
- The `this` argument passed to the compiler for diagnostics (line 82) is not modelled.
- The DOM is a value passed to each call. Element identity is a handle. The browser's selector engine, `cloneNode`, `createElement` and HTML serialisation are not modelled.
- Dom.GetOuterHTML: the detached `<div>`, the deep clone and serialising the container are folded into one function parameter. So the model states that the fallback is that serialisation, not how it is built.
- Which non-string values are falsy or have a truthy `nodeType` is given by the `TemplateOpt` case (`Node`, and `Other` with its truthiness). JavaScript's coercion rules are not modelled.
- MountInterceptor.Normalize: a selector that matches nothing is modelled as a `null` target. The `query` helper (`src/platforms/web/util/index`) is not part of this model, and a variant that returns a fresh element on a miss would compile and mount on that element instead.
- TemplateCache.IdToTemplate: relies on the same assumption, that `query` yields `null` on a miss, so that `el && el.innerHTML` is `null`.
- TemplateCache.LookupStep: the memo helper `cached` (`src/core/util/index`) is not part of this model. It is assumed to store every first result, including a falsy one (`null` or `""`), and to serve it on every later call. A memo that recomputes falsy results would query the DOM again after such a miss.
- TemplateCache.RepeatLookup: rests on the LookupStep assumption. For a falsy first result, "the same value even if the DOM changed" holds only for a memo that stores falsy results. Against an unchanged DOM it holds for either kind (see LookupMatchesDom).
- TemplateCache.ReplayHit: rests on the LookupStep assumption for entries holding a falsy value.
- TemplateCache.ReplayRepeats: rests on the LookupStep assumption when the first result for the selector is falsy.
- TemplateCache.ReplayFirstLookupDecides: rests on the LookupStep assumption when the first result for the selector is falsy.
- TemplateCache.ReplayGrows: rests on the LookupStep assumption: that falsy results are stored too.
- MountInterceptor.MountSpec: a selector that the browser's `querySelector` rejects as invalid (such as `#1`) throws a `SyntaxError` out of `$mount`, from line 27 for a target or from line 17 for a `#` template. The model has no exception path, so such a selector is treated as an ordinary miss: the target becomes `null`, or the lookup yields `null` and is stored.
