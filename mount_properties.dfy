/** What one call of `$mount` promises, stated over its specification. */
module MountProperties {
  import opened Dom
  import TemplateCache
  import opened MountInterceptor

  /** Mounting on `<html>` or `<body>` returns the component unchanged: no
      compiler call, no delegation, options and memo table as they were. */
  lemma RootTargetAborts(env: Env, doc: Document, target: MountTarget, hydrating: Option<bool>,
                         c: Config, entries: TemplateCache.Entries,
                         compile: Compiler, containerHTML: Element -> string)
    requires IsRootTarget(doc, Normalize(doc, target))
    ensures MountSpec(env, doc, target, hydrating, c, entries, compile, containerHTML) ==
            MountRun(ReturnedSelf, [], c, entries)
  {
  }

  /** Before `<body>` exists, `document.body` is `null`, so a target that
      normalises to `null` (a `null` argument or a selector that matches
      nothing) is refused like `<body>` itself. */
  lemma NullTargetWithoutBodyAborts(env: Env, doc: Document, target: MountTarget, hydrating: Option<bool>,
                                    c: Config, entries: TemplateCache.Entries,
                                    compile: Compiler, containerHTML: Element -> string)
    requires doc.body.None? && Normalize(doc, target) == Null
    ensures MountSpec(env, doc, target, hydrating, c, entries, compile, containerHTML) ==
            MountRun(ReturnedSelf, [], c, entries)
  {
  }

  /** An existing render function wins: whatever `template` and the target's
      markup are, nothing is compiled and the runtime's `$mount` is called once
      with the normalised target and `hydrating`. */
  lemma RenderWins(env: Env, doc: Document, target: MountTarget, hydrating: Option<bool>,
                   c: Config, entries: TemplateCache.Entries,
                   compile: Compiler, containerHTML: Element -> string, otherTemplate: TemplateOpt)
    requires !IsRootTarget(doc, Normalize(doc, target)) && c.render.Some?
    ensures var el := Normalize(doc, target);
            MountSpec(env, doc, target, hydrating, c, entries, compile, containerHTML) ==
            MountRun(Delegated(el, hydrating), [MountCall(el, hydrating)], c, entries)
    ensures MountSpec(env, doc, target, hydrating, c.(template := otherTemplate), entries, compile, containerHTML).calls ==
            MountSpec(env, doc, target, hydrating, c, entries, compile, containerHTML).calls
  {
  }

  /** The run when a template string `t` is compiled: exactly one compiler
      call, its two results installed, then one delegation. */
  predicate CompiledRun(env: Env, doc: Document, target: MountTarget, hydrating: Option<bool>,
                        c: Config, compile: Compiler, t: string, run: MountRun)
  {
    var el := Normalize(doc, target);
    var o := CompilerOptionsFor(env, c);
    run.outcome == Delegated(el, hydrating) &&
    run.calls == [CompileCall(t, o), MountCall(el, hydrating)] &&
    run.config == c.(render := Some(compile(t, o).render), staticRenderFns := Some(compile(t, o).staticRenderFns))
  }

  /** The run when nothing is compiled: one delegation, options untouched. */
  predicate SkippedRun(doc: Document, target: MountTarget, hydrating: Option<bool>, c: Config, run: MountRun)
  {
    var el := Normalize(doc, target);
    run.outcome == Delegated(el, hydrating) && run.calls == [MountCall(el, hydrating)] && run.config == c
  }

  /** A `#` template is a selector: it goes through `idToTemplate`, and what is
      compiled (if anything) is the lookup's value, never the selector text. */
  lemma HashTemplateIsSelector(env: Env, doc: Document, target: MountTarget, hydrating: Option<bool>,
                               c: Config, entries: TemplateCache.Entries,
                               compile: Compiler, containerHTML: Element -> string)
    requires !IsRootTarget(doc, Normalize(doc, target)) && c.render.None?
    requires c.template.Str? && c.template.s != "" && c.template.s[0] == '#'
    ensures var step := TemplateCache.LookupStep(entries, doc, c.template.s);
            var run := MountSpec(env, doc, target, hydrating, c, entries, compile, containerHTML);
            run.entries == step.entries &&
            (IsTruthy(step.value) ==> CompiledRun(env, doc, target, hydrating, c, compile, step.value.value, run)) &&
            (!IsTruthy(step.value) ==> SkippedRun(doc, target, hydrating, c, run))
  {
  }

  /** Against a DOM unchanged since the memo table was filled, a `#` template
      compiles the inner markup of the element the selector matches; when
      nothing matches, or the markup is empty, nothing is compiled. */
  lemma HashTemplateAgainstStaticDom(env: Env, doc: Document, target: MountTarget, hydrating: Option<bool>,
                                     c: Config, entries: TemplateCache.Entries,
                                     compile: Compiler, containerHTML: Element -> string)
    requires !IsRootTarget(doc, Normalize(doc, target)) && c.render.None?
    requires c.template.Str? && c.template.s != "" && c.template.s[0] == '#'
    requires TemplateCache.Consistent(entries, doc)
    ensures var sel := c.template.s;
            var run := MountSpec(env, doc, target, hydrating, c, entries, compile, containerHTML);
            TemplateCache.Consistent(run.entries, doc) &&
            (sel in doc.selectors && doc.selectors[sel].innerHTML != "" ==>
               CompiledRun(env, doc, target, hydrating, c, compile, doc.selectors[sel].innerHTML, run)) &&
            (!(sel in doc.selectors && doc.selectors[sel].innerHTML != "") ==> SkippedRun(doc, target, hydrating, c, run))
  {
  }

  /** A truthy template string not starting with `#` reaches the compiler
      unchanged, and the memo table is not consulted. */
  lemma LiteralTemplateCompiledVerbatim(env: Env, doc: Document, target: MountTarget, hydrating: Option<bool>,
                                        c: Config, entries: TemplateCache.Entries,
                                        compile: Compiler, containerHTML: Element -> string)
    requires !IsRootTarget(doc, Normalize(doc, target)) && c.render.None?
    requires c.template.Str? && c.template.s != "" && c.template.s[0] != '#'
    ensures var run := MountSpec(env, doc, target, hydrating, c, entries, compile, containerHTML);
            CompiledRun(env, doc, target, hydrating, c, compile, c.template.s, run) && run.entries == entries
  {
  }

  /** A truthy template that is neither a string nor a node abandons the mount:
      the component is returned, nothing is called, options are unchanged. */
  lemma InvalidTemplateAborts(env: Env, doc: Document, target: MountTarget, hydrating: Option<bool>,
                              c: Config, entries: TemplateCache.Entries,
                              compile: Compiler, containerHTML: Element -> string)
    requires !IsRootTarget(doc, Normalize(doc, target)) && c.render.None? && c.template == Other(true)
    ensures MountSpec(env, doc, target, hydrating, c, entries, compile, containerHTML) ==
            MountRun(ReturnedSelf, [], c, entries)
  {
  }

  /** A node template compiles its `innerHTML`, or compiles nothing when that
      is empty. */
  lemma NodeTemplateCompilesInnerHTML(env: Env, doc: Document, target: MountTarget, hydrating: Option<bool>,
                                      c: Config, entries: TemplateCache.Entries,
                                      compile: Compiler, containerHTML: Element -> string)
    requires !IsRootTarget(doc, Normalize(doc, target)) && c.render.None? && c.template.Node?
    ensures var run := MountSpec(env, doc, target, hydrating, c, entries, compile, containerHTML);
            run.entries == entries &&
            (c.template.innerHTML != "" ==> CompiledRun(env, doc, target, hydrating, c, compile, c.template.innerHTML, run)) &&
            (c.template.innerHTML == "" ==> SkippedRun(doc, target, hydrating, c, run))
  {
  }

  /** With a falsy template (absent, `""` or another falsy value) and an
      element target, the target's outer markup is the template; with no
      element target nothing is compiled. */
  lemma FalsyTemplateUsesOuterHTML(env: Env, doc: Document, target: MountTarget, hydrating: Option<bool>,
                                   c: Config, entries: TemplateCache.Entries,
                                   compile: Compiler, containerHTML: Element -> string)
    requires !IsRootTarget(doc, Normalize(doc, target)) && c.render.None? && !TemplateTruthy(c.template)
    ensures var el := Normalize(doc, target);
            var run := MountSpec(env, doc, target, hydrating, c, entries, compile, containerHTML);
            run.entries == entries &&
            (el.Elem? && GetOuterHTML(el.element, containerHTML) != "" ==>
               CompiledRun(env, doc, target, hydrating, c, compile, GetOuterHTML(el.element, containerHTML), run)) &&
            (!(el.Elem? && GetOuterHTML(el.element, containerHTML) != "") ==> SkippedRun(doc, target, hydrating, c, run))
  {
  }

  /** Every call of `$mount` ends in exactly one of three ways: abandoned with
      nothing called and nothing changed; delegated without compiling, options
      untouched; or compiled once, results installed, then delegated. The
      compiler is never called without the delegation following it, and only
      `render` and `staticRenderFns` ever change. */
  lemma {:induction false} ThreeOutcomes(env: Env, doc: Document, target: MountTarget, hydrating: Option<bool>,
                                         c: Config, entries: TemplateCache.Entries,
                                         compile: Compiler, containerHTML: Element -> string)
    ensures var run := MountSpec(env, doc, target, hydrating, c, entries, compile, containerHTML);
            (run.outcome == ReturnedSelf && run.calls == [] && run.config == c && run.entries == entries) ||
            SkippedRun(doc, target, hydrating, c, run) ||
            (exists t :: t != "" && CompiledRun(env, doc, target, hydrating, c, compile, t, run))
    ensures var run := MountSpec(env, doc, target, hydrating, c, entries, compile, containerHTML);
            run.config.template == c.template && run.config.delimiters == c.delimiters &&
            run.config.comments == c.comments
  {
    var el := Normalize(doc, target);
    var run := MountSpec(env, doc, target, hydrating, c, entries, compile, containerHTML);
    if !IsRootTarget(doc, el) && c.render.None? {
      var r := ResolveTemplate(c.template, el, doc, entries, containerHTML);
      if r.resolution.Source? {
        assert CompiledRun(env, doc, target, hydrating, c, compile, r.resolution.template, run);
      } else if r.resolution == Invalid {
        assert c.template == Other(true);
      }
    }
  }

  /** The compiler is skipped while the runtime's `$mount` is still called
      exactly when the final truthiness test on the resolved template fails: a `#` lookup that finds
      nothing or finds empty markup, a node with empty `innerHTML`, or a falsy
      template with no element target or an empty outer markup. */
  lemma {:induction false} FalsyResolutionStillDelegates(env: Env, doc: Document, target: MountTarget, hydrating: Option<bool>,
                                                         c: Config, entries: TemplateCache.Entries,
                                                         compile: Compiler, containerHTML: Element -> string)
    requires !IsRootTarget(doc, Normalize(doc, target)) && c.render.None?
    ensures var el := Normalize(doc, target);
            SkippedRun(doc, target, hydrating, c, MountSpec(env, doc, target, hydrating, c, entries, compile, containerHTML)) <==>
            ((c.template.Str? && c.template.s != "" && c.template.s[0] == '#' &&
              !IsTruthy(TemplateCache.LookupStep(entries, doc, c.template.s).value)) ||
             (c.template.Node? && c.template.innerHTML == "") ||
             (!TemplateTruthy(c.template) && !(el.Elem? && GetOuterHTML(el.element, containerHTML) != "")))
  {
    var el := Normalize(doc, target);
    var r := ResolveTemplate(c.template, el, doc, entries, containerHTML);
    var run := MountSpec(env, doc, target, hydrating, c, entries, compile, containerHTML);
    if r.resolution.Source? {
      assert |run.calls| == 2;
    }
  }
}
