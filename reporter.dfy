/** `reporter`: the failure message shown by both matchers. */
module Reporter {
  import opened Wrappers
  import opened Text
  import opened Results

  const LineBreak := "\n\n"
  const HorizontalLine := "\U{2500}\U{2500}\U{2500}\U{2500}\U{2500}\U{2500}\U{2500}\U{2500}"
  /** What stands between the blocks of two violations, and between the summary and the first one. */
  const ViolationSeparator := LineBreak + HorizontalLine + LineBreak

  /** `allowedViolations ? ... : ...`: undefined and 0 are falsy. */
  predicate HasThreshold(allowed: Option<int>)
  {
    allowed.Some? && allowed.value != 0
  }

  function ThresholdWording(allowed: Option<int>): string
  {
    if HasThreshold(allowed) then "less than " + IntToString(allowed.value) else "no"
  }

  const CountSuffix := " violations found. \n\n "

  /** The sentence stating what was expected. */
  function Expectation(allowed: Option<int>): string
  {
    "Expect to have " + ThresholdWording(allowed) + " violations."
  }

  /** The first line of the report: the count, then the expectation. */
  function Summary(count: nat, allowed: Option<int>): string
  {
    NatToString(count) + CountSuffix + Expectation(allowed)
  }

  /** `node.failureSummary` in string concatenation: an undefined one prints as "undefined". */
  function FailureText(node: ViolationNode): string
  {
    match node.failureSummary
    case Some(s) => s
    case None => "undefined"
  }

  const HelpUrlIntro := "You can find more information on this issue here: \n"

  /** The closing help line of a block, only when the violation has a help URL. */
  function HelpLine(v: Violation): string
  {
    if v.helpUrl != "" then HelpUrlIntro + v.helpUrl else ""
  }

  /** The locator of a node: its selectors joined by ", ". */
  function Locator(node: ViolationNode): string
  {
    "Violation found at $('" + Join(node.target, ", ") + "')"
  }

  /** The rule line: help text and rule id. */
  function RuleLine(v: Violation): string
  {
    v.help + " (" + v.id + ")"
  }

  /** The part of a node block before the rule line: where the node is and its markup. */
  function Located(node: ViolationNode): string
  {
    Locator(node) + LineBreak + node.html + LineBreak + "Received:" + LineBreak
  }

  /** The part of a node block after the rule line: the failure summary and the help line. */
  function Explained(v: Violation, node: ViolationNode): string
  {
    LineBreak + FailureText(node) + LineBreak + HelpLine(v)
  }

  /** The block for one node of one violation. */
  function NodeBlock(v: Violation, node: ViolationNode): string
  {
    Located(node) + RuleLine(v) + Explained(v, node)
  }

  function NodeBlocks(v: Violation): seq<string>
  {
    seq(|v.nodes|, i requires 0 <= i < |v.nodes| => NodeBlock(v, v.nodes[i]))
  }

  /** A violation's node blocks, separated by a blank line. */
  function ViolationBody(v: Violation): string
  {
    Join(NodeBlocks(v), LineBreak)
  }

  function ViolationBodies(vs: seq<Violation>): seq<string>
  {
    seq(|vs|, i requires 0 <= i < |vs| => ViolationBody(vs[i]))
  }

  /** Everything after the summary. */
  function ViolationsSection(vs: seq<Violation>): string
  {
    Join(ViolationBodies(vs), ViolationSeparator)
  }

  /**
   * `reporter(violations, allowedViolations)`: empty when there is
   * nothing to report, otherwise the summary and the violation blocks.
   */
  function Report(vs: seq<Violation>, allowed: Option<int>): (r: string)
    ensures r == "" <==> vs == []
  {
    if |vs| == 0 then ""
    else Summary(|vs|, allowed) + ViolationSeparator + ViolationsSection(vs)
  }

  /** The count at the head of a report reads back as the number of violations. */
  lemma ReportCountReadable(vs: seq<Violation>, allowed: Option<int>)
    requires vs != []
    ensures var r, d := Report(vs, allowed), NatToString(|vs|);
      |d| < |r| && r[..|d|] == d && AllDigits(r[..|d|]) && ParseNat(r[..|d|]) == |vs| && !IsDigit(r[|d|])
  {
    ParseNatToString(|vs|);
    var d := NatToString(|vs|);
    var head := d + CountSuffix;
    assert head[..|d|] == d && head[|d|] == ' ';
    PrefixExtends(d, head, Expectation(allowed));
    PrefixExtends(d, Summary(|vs|, allowed), ViolationSeparator);
    PrefixExtends(d, Summary(|vs|, allowed) + ViolationSeparator, ViolationsSection(vs));
  }

  /** The summary followed by a blank line, written out. */
  lemma SummaryText(count: nat, allowed: Option<int>)
    ensures Summary(count, allowed) + LineBreak ==
      NatToString(count) + " violations found. \n\n Expect to have " + ThresholdWording(allowed) + " violations." + "\n\n"
  {
  }

  /** A non-empty report begins with its summary, followed by a blank line. */
  lemma ReportBeginsWithSummary(vs: seq<Violation>, allowed: Option<int>)
    requires vs != []
    ensures var p := NatToString(|vs|) + " violations found. \n\n Expect to have " + ThresholdWording(allowed)
                     + " violations." + "\n\n";
      |p| <= |Report(vs, allowed)| && Report(vs, allowed)[..|p|] == p
  {
    var summary := Summary(|vs|, allowed);
    var head := summary + LineBreak;
    assert ViolationSeparator[..|LineBreak|] == LineBreak;
    PrefixAfter(summary, ViolationSeparator, LineBreak);
    var r := summary + ViolationSeparator + ViolationsSection(vs);
    assert r[..|head|] == (summary + ViolationSeparator)[..|head|];
    SummaryText(|vs|, allowed);
  }

  /** A threshold of 0 reads like no threshold, and the report then begins by expecting no violations. */
  lemma ZeroThresholdSaysNo(vs: seq<Violation>)
    requires vs != []
    ensures Report(vs, Some(0)) == Report(vs, None)
    ensures var p := NatToString(|vs|) + " violations found. \n\n Expect to have " + "no" + " violations." + "\n\n";
      |p| <= |Report(vs, None)| && Report(vs, None)[..|p|] == p
  {
    ReportBeginsWithSummary(vs, None);
    assert ThresholdWording(None) == "no";
  }

  /** A non-zero threshold is spelled out at the head of the report, and its digits read back as the threshold. */
  lemma ThresholdStated(vs: seq<Violation>, k: int)
    requires vs != [] && k != 0
    ensures var p := NatToString(|vs|) + " violations found. \n\n Expect to have " + ("less than " + IntToString(k))
                     + " violations." + "\n\n";
      |p| <= |Report(vs, Some(k))| && Report(vs, Some(k))[..|p|] == p
    ensures ParseInt(IntToString(k)) == k
  {
    ReportBeginsWithSummary(vs, Some(k));
    assert ThresholdWording(Some(k)) == "less than " + IntToString(k);
    ParseIntToString(k);
  }

  /** Appending a violation appends its body after exactly one separator: the report keeps input order. */
  lemma SectionAppend(vs: seq<Violation>, v: Violation)
    requires vs != []
    ensures ViolationsSection(vs + [v]) == ViolationsSection(vs) + ViolationSeparator + ViolationBody(v)
  {
    assert ViolationBodies(vs + [v]) == ViolationBodies(vs) + [ViolationBody(v)];
    JoinAppend(ViolationBodies(vs), ViolationSeparator, ViolationBody(v));
  }

  /** Appending a node appends its block after one blank line. */
  lemma BodyAppend(v: Violation, node: ViolationNode)
    requires v.nodes != []
    ensures ViolationBody(v.(nodes := v.nodes + [node])) == ViolationBody(v) + LineBreak + NodeBlock(v, node)
  {
    var w := v.(nodes := v.nodes + [node]);
    assert NodeBlocks(w) == NodeBlocks(v) + [NodeBlock(v, node)];
    JoinAppend(NodeBlocks(v), LineBreak, NodeBlock(v, node));
  }

  /** Two violations: summary, separator, first body, one separator, second body. */
  lemma TwoViolations(a: Violation, b: Violation, allowed: Option<int>)
    ensures Report([a, b], allowed) ==
      Summary(2, allowed) + ViolationSeparator + (ViolationBody(a) + ViolationSeparator + ViolationBody(b))
  {
    SectionAppend([a], b);
    assert [a] + [b] == [a, b];
    assert ViolationsSection([a]) == ViolationBody(a);
  }

  /** Every (violation, node) pair has its block in the report. */
  lemma ReportListsEveryNode(vs: seq<Violation>, allowed: Option<int>, i: nat, j: nat)
    requires i < |vs| && j < |vs[i].nodes|
    ensures IsInfix(NodeBlock(vs[i], vs[i].nodes[j]), Report(vs, allowed))
  {
    var block := NodeBlock(vs[i], vs[i].nodes[j]);
    JoinContainsEach(NodeBlocks(vs[i]), LineBreak, j);
    JoinContainsEach(ViolationBodies(vs), ViolationSeparator, i);
    InfixTransitive(block, ViolationBody(vs[i]), ViolationsSection(vs));
    InfixOfConcat(block, Summary(|vs|, allowed) + ViolationSeparator, ViolationsSection(vs), "");
    assert Summary(|vs|, allowed) + ViolationSeparator + ViolationsSection(vs) + "" == Report(vs, allowed);
  }

  /** Each part of a node block occurs in it. */
  lemma NodeBlockParts(v: Violation, node: ViolationNode)
    ensures IsInfix(Locator(node), NodeBlock(v, node))
    ensures IsInfix(RuleLine(v), NodeBlock(v, node))
    ensures IsInfix(FailureText(node), NodeBlock(v, node))
    ensures v.helpUrl != "" ==> IsInfix(HelpUrlIntro + v.helpUrl, NodeBlock(v, node))
  {
    var loc, rule, expl := Locator(node), RuleLine(v), Explained(v, node);
    InfixOfItself(loc);
    InfixLeft(loc, loc, LineBreak);
    InfixLeft(loc, loc + LineBreak, node.html);
    InfixLeft(loc, loc + LineBreak + node.html, LineBreak);
    InfixLeft(loc, loc + LineBreak + node.html + LineBreak, "Received:");
    InfixLeft(loc, loc + LineBreak + node.html + LineBreak + "Received:", LineBreak);
    InfixLeft(loc, Located(node), rule);
    InfixLeft(loc, Located(node) + rule, expl);

    InfixOfItself(rule);
    InfixRight(rule, Located(node), rule);
    InfixLeft(rule, Located(node) + rule, expl);

    var fail := FailureText(node);
    InfixOfItself(fail);
    InfixRight(fail, LineBreak, fail);
    InfixLeft(fail, LineBreak + fail, LineBreak);
    InfixLeft(fail, LineBreak + fail + LineBreak, HelpLine(v));
    InfixRight(fail, Located(node) + rule, expl);

    if v.helpUrl != "" {
      var help := HelpLine(v);
      InfixOfItself(help);
      InfixRight(help, LineBreak + fail + LineBreak, help);
      InfixRight(help, Located(node) + rule, expl);
    }
  }

  /** A help URL shows only as its own closing line: without one the block ends with the failure summary. */
  lemma HelpLineOnlyWithUrl(v: Violation, node: ViolationNode)
    ensures HelpLine(v) == "" <==> v.helpUrl == ""
    ensures NodeBlock(v, node) == NodeBlock(v.(helpUrl := ""), node) + HelpLine(v)
  {
  }

  /** The report names the rule (help text and id) of every violation that has a node. */
  lemma ReportNamesEveryRule(vs: seq<Violation>, allowed: Option<int>, i: nat)
    requires i < |vs| && vs[i].nodes != []
    ensures IsInfix(RuleLine(vs[i]), Report(vs, allowed))
    ensures vs[i].helpUrl != "" ==> IsInfix(HelpUrlIntro + vs[i].helpUrl, Report(vs, allowed))
  {
    var block := NodeBlock(vs[i], vs[i].nodes[0]);
    NodeBlockParts(vs[i], vs[i].nodes[0]);
    ReportListsEveryNode(vs, allowed, i, 0);
    InfixTransitive(RuleLine(vs[i]), block, Report(vs, allowed));
    if vs[i].helpUrl != "" {
      InfixTransitive(HelpUrlIntro + vs[i].helpUrl, block, Report(vs, allowed));
    }
  }
}
