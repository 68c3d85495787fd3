/** The `$mount` wrapper of the full (runtime + compiler) build: it checks the
    mount target, turns the component's `template` (or the target's own markup)
    into a string, has the template compiler turn that into render functions,
    installs them on the component options and then calls the runtime's own
    `$mount`. The compiler and the runtime's `$mount` are collaborators whose
    code is not modelled: the compiler is a function parameter, and a call of
    the runtime's `$mount` is reported as an outcome. */
module MountInterceptor {
  import opened Dom
  import TemplateCache

  /** A render function produced by the compiler, known only by its code. */
  datatype RenderFn = RenderFn(code: string)

  /** What the compiler returns: `{ render, staticRenderFns }`. */
  datatype Compiled = Compiled(render: RenderFn, staticRenderFns: seq<RenderFn>)

  /** Custom interpolation delimiters, such as `["${", "}"]`. */
  datatype Delimiters = Delimiters(open: string, close: string)

  /** The option bag handed to the compiler. */
  datatype CompilerOptions = CompilerOptions(
    outputSourceRange: bool,
    shouldDecodeNewlines: bool,
    shouldDecodeNewlinesForHref: bool,
    delimiters: Option<Delimiters>,
    comments: Option<bool>)

  /** The build mode and the two browser quirk flags detected at load time. */
  datatype Env = Env(production: bool, shouldDecodeNewlines: bool, shouldDecodeNewlinesForHref: bool)

  /** The template compiler collaborator, `compileToFunctions`. */
  type Compiler = (string, CompilerOptions) -> Compiled

  /** The `template` option: absent, a string, something with a truthy
      `nodeType` (an element; only its `innerHTML` is read), or any other value,
      which is truthy or falsy. */
  datatype TemplateOpt = Absent | Str(s: string) | Node(innerHTML: string) | Other(truthy: bool)

  /** JavaScript truthiness of the `template` value. */
  predicate TemplateTruthy(t: TemplateOpt)
    ensures t.Absent? ==> !TemplateTruthy(t)
    ensures t.Str? ==> (TemplateTruthy(t) <==> t.s != "")
    ensures t.Node? ==> TemplateTruthy(t)
    ensures t.Other? ==> (TemplateTruthy(t) <==> t.truthy)
  {
    match t
    case Absent => false
    case Str(s) => s != ""
    case Node(_) => true
    case Other(b) => b
  }

  /** The `el` argument of `$mount`, before or after normalisation. */
  datatype MountTarget = Undefined | Null | Selector(selector: string) | Elem(element: Element)

  /** JavaScript truthiness of the `el` value: an element or a non-empty
      selector. */
  predicate TargetTruthy(t: MountTarget)
    ensures TargetTruthy(t) <==> t.Elem? || (t.Selector? && t.selector != "")
  {
    match t
    case Undefined => false
    case Null => false
    case Selector(s) => s != ""
    case Elem(_) => true
  }

  /** The component options `$mount` reads and writes. A `render` that is
      `null`, `undefined` or otherwise falsy is `None`. */
  datatype Config = Config(
    render: Option<RenderFn>,
    staticRenderFns: Option<seq<RenderFn>>,
    template: TemplateOpt,
    delimiters: Option<Delimiters>,
    comments: Option<bool>)

  /** A call made to a collaborator, in the order made. */
  datatype Call = CompileCall(template: string, options: CompilerOptions) | MountCall(el: MountTarget, hydrating: Option<bool>)

  /** What `$mount` returns: the component itself, unmounted, or whatever the
      runtime's `$mount` returned when called with these arguments. */
  datatype Outcome = ReturnedSelf | Delegated(el: MountTarget, hydrating: Option<bool>)

  /** `el = el && query(el)`: a falsy target stays as it is, an element stays
      itself and a selector becomes the element it matches, or `null`. */
  function Normalize(doc: Document, target: MountTarget): (r: MountTarget)
    ensures !TargetTruthy(target) ==> r == target
    ensures target.Elem? ==> r == target
    ensures target.Selector? && TargetTruthy(target) ==>
              r == if target.selector in doc.selectors then Elem(doc.selectors[target.selector]) else Null
    ensures r.Selector? ==> r.selector == ""
  {
    if !TargetTruthy(target) then target
    else match target
      case Selector(s) => (match Query(doc, s) case Some(e) => Elem(e) case None => Null)
      case _ => target
  }

  /** `el === node` for a node of the document that may be `null`: the same
      element by identity, that is by handle, or both `null`. */
  predicate SameNode(el: MountTarget, node: Option<Element>)
  {
    match node
    case None => el == Null
    case Some(n) => el.Elem? && el.element.handle == n.handle
  }

  /** `el === document.body || el === document.documentElement`. */
  predicate IsRootTarget(doc: Document, el: MountTarget)
    ensures el.Undefined? || el.Selector? ==> !IsRootTarget(doc, el)
    ensures el.Null? ==> (IsRootTarget(doc, el) <==> doc.body.None? || doc.documentElement.None?)
    ensures el.Elem? ==> (IsRootTarget(doc, el) <==>
              (doc.body.Some? && doc.body.value.handle == el.element.handle) ||
              (doc.documentElement.Some? && doc.documentElement.value.handle == el.element.handle))
  {
    SameNode(el, doc.body) || SameNode(el, doc.documentElement)
  }

  /** How the template was resolved: an invalid option (mount is abandoned),
      nothing to compile (a falsy value), or a string to compile. */
  datatype Resolution = Invalid | Skip | Source(template: string)

  /** The resolution and the `idToTemplate` table after it. */
  datatype Resolved = Resolved(resolution: Resolution, entries: TemplateCache.Entries)

  /** The truthy string among the values the local `template` can hold, if any. */
  function Compilable(v: Option<string>): (r: Resolution)
    ensures r != Invalid
    ensures r.Source? <==> IsTruthy(v)
    ensures r.Source? ==> r.template == v.value
  {
    if IsTruthy(v) then Source(v.value) else Skip
  }

  /** Template resolution for options without a render function. */
  function ResolveTemplate(template: TemplateOpt, el: MountTarget, doc: Document,
                           entries: TemplateCache.Entries, containerHTML: Element -> string): (r: Resolved)
    ensures r.resolution.Source? ==> r.resolution.template != ""
    ensures r.resolution == Invalid <==> template == Other(true)
    ensures r.entries == if template.Str? && template.s != "" && template.s[0] == '#'
                         then TemplateCache.LookupStep(entries, doc, template.s).entries
                         else entries
  {
    if TemplateTruthy(template) then
      if template.Str? then
        if template.s[0] == '#' then
          var step := TemplateCache.LookupStep(entries, doc, template.s);
          Resolved(Compilable(step.value), step.entries)
        else
          Resolved(Source(template.s), entries)
      else if template.Node? then
        Resolved(Compilable(Some(template.innerHTML)), entries)
      else
        Resolved(Invalid, entries)
    else if el.Elem? then
      Resolved(Compilable(Some(GetOuterHTML(el.element, containerHTML))), entries)
    else
      Resolved(Skip, entries)
  }

  /** The value `idToTemplate` hands back, as a value of the local `template`:
      the inner markup string, or `null`, a falsy non-string. */
  function FromLookup(v: Option<string>): (t: TemplateOpt)
    ensures TemplateTruthy(t) <==> IsTruthy(v)
    ensures v.Some? ==> t == Str(v.value)
    ensures v.None? ==> !TemplateTruthy(t) && !t.Str?
  {
    match v
    case Some(s) => Str(s)
    case None => Other(false)
  }

  /** The compiler options built from the component options and the build. */
  function CompilerOptionsFor(env: Env, c: Config): (o: CompilerOptions)
    ensures o.outputSourceRange <==> !env.production
    ensures o.shouldDecodeNewlines == env.shouldDecodeNewlines
    ensures o.shouldDecodeNewlinesForHref == env.shouldDecodeNewlinesForHref
    ensures o.delimiters == c.delimiters && o.comments == c.comments
  {
    CompilerOptions(!env.production, env.shouldDecodeNewlines, env.shouldDecodeNewlinesForHref, c.delimiters, c.comments)
  }

  /** Everything one call of `$mount` does: what it returns, the calls it makes,
      the options and the `idToTemplate` table afterwards. */
  datatype MountRun = MountRun(outcome: Outcome, calls: seq<Call>, config: Config, entries: TemplateCache.Entries)

  /** The specification of `$mount`: one call's effect as a function of the
      state before it. */
  function MountSpec(env: Env, doc: Document, target: MountTarget, hydrating: Option<bool>,
                     c: Config, entries: TemplateCache.Entries,
                     compile: Compiler, containerHTML: Element -> string): (run: MountRun)
    ensures run.outcome == ReturnedSelf <==> run.calls == []
    ensures run.outcome.Delegated? ==> run.outcome == Delegated(Normalize(doc, target), hydrating)
  {
    var el := Normalize(doc, target);
    if IsRootTarget(doc, el) then
      MountRun(ReturnedSelf, [], c, entries)
    else if c.render.Some? then
      MountRun(Delegated(el, hydrating), [MountCall(el, hydrating)], c, entries)
    else
      var r := ResolveTemplate(c.template, el, doc, entries, containerHTML);
      match r.resolution
      case Invalid =>
        MountRun(ReturnedSelf, [], c, r.entries)
      case Skip =>
        MountRun(Delegated(el, hydrating), [MountCall(el, hydrating)], c, r.entries)
      case Source(t) =>
        var o := CompilerOptionsFor(env, c);
        var out := compile(t, o);
        MountRun(Delegated(el, hydrating), [CompileCall(t, o), MountCall(el, hydrating)],
                 c.(render := Some(out.render), staticRenderFns := Some(out.staticRenderFns)), r.entries)
  }

  /** `vm.$options`: only `render` and `staticRenderFns` are written here. */
  class ComponentOptions {
    var render: Option<RenderFn>
    var staticRenderFns: Option<seq<RenderFn>>
    var template: TemplateOpt
    var delimiters: Option<Delimiters>
    var comments: Option<bool>

    function State(): Config
      reads this
    {
      Config(render, staticRenderFns, template, delimiters, comments)
    }

    constructor (c: Config)
      ensures State() == c
    {
      render, staticRenderFns, template, delimiters, comments :=
        c.render, c.staticRenderFns, c.template, c.delimiters, c.comments;
    }
  }

  /** A component instance, as far as `$mount` sees it. */
  class Component {
    const options: ComponentOptions

    constructor (c: Config)
      ensures fresh(options) && options.State() == c
    {
      options := new ComponentOptions(c);
    }

    /** `vm.$mount(el, hydrating)`. `cache` is the table behind `idToTemplate`,
        `doc` the DOM at the time of the call; `calls` records the calls made
        to the compiler and to the runtime's `$mount`. */
    method Mount(env: Env, doc: Document, cache: TemplateCache.IdCache, compile: Compiler,
                 containerHTML: Element -> string, target: MountTarget, hydrating: Option<bool>)
      returns (outcome: Outcome, ghost calls: seq<Call>)
      modifies options`render, options`staticRenderFns, cache
      ensures var run := MountSpec(env, doc, target, hydrating, old(options.State()), old(cache.entries), compile, containerHTML);
              outcome == run.outcome && calls == run.calls &&
              options.State() == run.config && cache.entries == run.entries
    {
      var el := Normalize(doc, target);
      if IsRootTarget(doc, el) {
        return ReturnedSelf, [];
      }
      calls := [];
      if options.render.None? {
        var template := options.template;
        if TemplateTruthy(template) {
          if template.Str? {
            if template.s[0] == '#' {
              var found := cache.Lookup(doc, template.s);
              template := FromLookup(found);
            }
          } else if template.Node? {
            template := Str(template.innerHTML);
          } else {
            return ReturnedSelf, [];
          }
        } else if el.Elem? {
          template := Str(GetOuterHTML(el.element, containerHTML));
        }
        if TemplateTruthy(template) {
          assert template.Str?;
          var o := CompilerOptionsFor(env, options.State());
          var out := compile(template.s, o);
          calls := calls + [CompileCall(template.s, o)];
          options.render := Some(out.render);
          options.staticRenderFns := Some(out.staticRenderFns);
        }
      }
      calls := calls + [MountCall(el, hydrating)];
      outcome := Delegated(el, hydrating);
    }
  }
}
