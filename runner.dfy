/**
 * The `axe` function `configureAxe` returns: mount the HTML, run the
 * engine on it with the merged options, restore the document, settle.
 */
module Runner {
  import opened Wrappers
  import opened JsValues
  import opened Mounting
  import opened Options
  import opened Results

  /** How a call of the engine ends. */
  datatype EngineReply =
    | CalledBack(err: JsValue, results: AxeResults) // the engine calls `callback(err, results)`
    | ThrewFirst(error: JsValue)                     // `axeCore.run` throws without calling back

  /**
   * The engine, `axeCore.run(element, options, callback)`, as a function
   * of the node, the body markup at the time of the run and the options.
   */
  type Engine = (Root, string, EngineOptions) -> EngineReply

  datatype AxeOutcome =
    | MountThrew(error: MountError) // `mount` throws before any promise exists
    | Resolved(results: AxeResults) // the promise resolves with the engine's results
    | CallbackThrew(err: JsValue)   // `throw err` inside the callback: no `reject` call is made, so the
                                    // promise stays pending when the callback runs asynchronously
    | EngineRejected(thrown: JsValue) // the engine threw inside the promise executor: the promise is
                                     // rejected and `restore` never runs

  /** How the promise settles once the engine has finished. */
  function Settle(reply: EngineReply): AxeOutcome
  {
    match reply
    case ThrewFirst(e) => EngineRejected(e)
    case CalledBack(err, results) => if Truthy(err) then CallbackThrew(err) else Resolved(results)
  }

  /** The outcome of one `axe(html, additionalOptions)` call from a body holding `body`. */
  function AxeRun(body: string, cfg: AxeConfig, html: JsValue, additionalOptions: Option<JsObject>, run: Engine): AxeOutcome
  {
    var (mounted, mountedBody) := MountTransition(body, html);
    match mounted
    case Failure(e) => MountThrew(e)
    case Success(m) =>
      Settle(run(m.root, mountedBody, MergeOptions(cfg.runnerOptions, additionalOptions.GetOr([]))))
  }

  /**
   * `axe(html, additionalOptions = {})`. Whenever the engine calls back,
   * the body holds its markup from before the call by the time the call
   * settles. An engine that throws instead leaves the mounted markup.
   */
  method Axe(doc: Document, cfg: AxeConfig, html: JsValue, additionalOptions: Option<JsObject>, run: Engine)
    returns (outcome: AxeOutcome)
    modifies doc
    ensures !outcome.EngineRejected? ==> doc.bodyHTML == old(doc.bodyHTML)
    ensures outcome.EngineRejected? ==> doc.bodyHTML == MountTransition(old(doc.bodyHTML), html).1
    ensures outcome == AxeRun(old(doc.bodyHTML), cfg, html, additionalOptions, run)
  {
    ghost var before := doc.bodyHTML;
    var mounted := Mount(doc, html);
    if mounted.Failure? {
      MountFailureKeepsBody(before, html);
      return MountThrew(mounted.error);
    }
    var additional := if additionalOptions.Some? then additionalOptions.value else [];
    var options := MergeOptions(cfg.runnerOptions, additional);
    var reply := run(mounted.value.root, doc.bodyHTML, options);
    if reply.ThrewFirst? {
      return EngineRejected(reply.error);
    }
    Restore(doc, mounted.value.restore);
    MountThenRestore(before, html);
    if Truthy(reply.err) {
      return CallbackThrew(reply.err);
    }
    return Resolved(reply.results);
  }

  /** The engine audits the markup that was mounted: for a string with a tag, the body then holds exactly that string. */
  lemma EngineSeesMarkup(body: string, cfg: AxeConfig, s: string, additionalOptions: Option<JsObject>, run: Engine)
    requires Markup.ContainsTag(s)
    ensures AxeRun(body, cfg, Str(s), additionalOptions, run) ==
      Settle(run(DocumentBody, s, MergeOptions(cfg.runnerOptions, additionalOptions.GetOr([]))))
  {
    MountMarkup(body, s);
  }

  /** After any successful mount, a falsy `err` (such as `null`) resolves the promise with the results. */
  lemma FalsyErrorResolves(body: string, cfg: AxeConfig, html: JsValue, additionalOptions: Option<JsObject>, run: Engine)
    requires MountTransition(body, html).0.Success?
    requires var reply := run(MountTransition(body, html).0.value.root, MountTransition(body, html).1,
                              MergeOptions(cfg.runnerOptions, additionalOptions.GetOr([])));
      reply.CalledBack? && !Truthy(reply.err)
    ensures AxeRun(body, cfg, html, additionalOptions, run) ==
      Resolved(run(MountTransition(body, html).0.value.root, MountTransition(body, html).1,
                   MergeOptions(cfg.runnerOptions, additionalOptions.GetOr([]))).results)
  {
  }
}
