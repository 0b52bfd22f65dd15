/** `contract risk`: the score that is folded from many observations with
    saturating additions, the level derived from it, and the threshold check. */
module RiskScore {
  import opened Wrappers
  import opened Sequences
  import opened Text

  const MAX_U32: nat := 0xFFFF_FFFF

  datatype RiskLevel = Low | Medium | High | Critical {
    function Rank(): nat {
      match this
      case Low => 0
      case Medium => 1
      case High => 2
      case Critical => 3
    }

    function Label(): string {
      match this
      case Low => "LOW"
      case Medium => "MEDIUM"
      case High => "HIGH"
      case Critical => "CRITICAL"
    }
  }

  function FromScore(score: nat): RiskLevel {
    if score <= 24 then Low else if score <= 49 then Medium else if score <= 74 then High else Critical
  }

  /** ASCII lower case decides whether a text is one of the four labels. */
  function ParseLevel(s: string): Option<RiskLevel> {
    match AsciiLower(s)
    case "low" => Some(Low)
    case "medium" => Some(Medium)
    case "high" => Some(High)
    case "critical" => Some(Critical)
    case _ => None
  }

  // ---- observations ----------------------------------------------------------------

  /** The fields of a contract that matter; absent fields are None. */
  datatype Facts = Facts(isVerified: Option<bool>, isMaintenance: Option<bool>, healthScore: Option<int>, ageDays: Option<nat>)

  /** A function of the contract's interface. */
  datatype AbiFunction = AbiFunction(name: Option<string>)

  /** Severities of scan findings; `None` for a finding without one. */
  datatype Detail = Detail(auditPassed: Option<bool>, scan: Option<seq<Option<string>>>, functions: Option<seq<AbiFunction>>)

  datatype DependencyFacts = DependencyFacts(isVerified: Option<bool>)

  datatype Category =
    Verification | Operational | Reputation | Maintenance | Audit | Vulnerability | Privilege | Dependency

  datatype Finding = Finding(category: Category, severity: string)

  datatype Report = Report(score: nat, level: string, findings: seq<Finding>, dependencyScore: nat)

  // ---- the closed form ---------------------------------------------------------------

  function SeverityOf(finding: Option<string>): string {
    finding.GetOr("info")
  }

  function Weight(severity: string): Option<string> -> nat {
    (f: Option<string>) => if SeverityOf(f) == severity then 1 else 0
  }

  function CountOf(findings: seq<Option<string>>, severity: string): nat {
    Sum(Apply(Weight(severity), findings))
  }

  function StatusScore(isVerified: Option<bool>, isMaintenance: Option<bool>): nat {
    (if isVerified.GetOr(false) then 0 else 20) + (if isMaintenance.GetOr(false) then 25 else 0)
  }

  function HealthScore(health: int): nat {
    if health < 20 then 25 else if health < 50 then 15 else 0
  }

  function FactsScore(facts: Facts): nat {
    StatusScore(facts.isVerified, facts.isMaintenance) + HealthScore(facts.healthScore.GetOr(0)) + AgeScore(facts.ageDays)
  }

  function AuditScore(passed: Option<bool>): nat {
    match passed
    case Some(true) => 0
    case Some(false) => 30
    case None => 15
  }

  /** Any number of critical findings scores once, likewise for high ones. */
  function ScanScore(findings: seq<Option<string>>): nat {
    (if CountOf(findings, "critical") > 0 then 40 else 0)
    + (if CountOf(findings, "high") > 0 then 20 else 0)
    + 10 * CountOf(findings, "medium")
  }

  const PRIVILEGE_KEYWORDS: seq<string> := [
    "admin", "upgrade", "migrate", "set_admin", "transfer_ownership", "pause", "unpause", "emergency",
    "selfdestruct", "destroy", "initialize", "set_owner", "grant_role", "revoke_role"]

  /** Lower case as far as it can bear on ASCII keywords: besides the ASCII
      letters, only the Kelvin sign and the dotted capital I have ASCII letters
      in their lower case; other characters never match one and are kept. */
  function Lowered(s: string): string {
    if s == "" then ""
    else
      (if s[0] == '\U{212A}' then "k"
       else if s[0] == '\U{0130}' then "i\U{0307}"
       else [LowerChar(s[0])]) + Lowered(s[1..])
  }

  predicate OccursAt(keyword: string, name: string, i: nat) {
    i + |keyword| <= |name| && name[i..i + |keyword|] == keyword
  }

  predicate PrivilegedName(name: string) {
    exists k, i :: 0 <= k < |PRIVILEGE_KEYWORDS| && 0 <= i < |Lowered(name)|
                   && OccursAt(PRIVILEGE_KEYWORDS[k], Lowered(name), i)
  }

  /** Some named function has a keyword in its name, in any case. */
  ghost predicate HasPrivileged(functions: seq<AbiFunction>) {
    exists i :: 0 <= i < |functions| && functions[i].name.Some? && PrivilegedName(functions[i].name.value)
  }

  ghost function DetailScore(detail: Option<Detail>): nat {
    match detail
    case None => 15
    case Some(d) =>
      AuditScore(d.auditPassed) + ScanScore(d.scan.GetOr([]))
      + if HasPrivileged(d.functions.GetOr([])) then 10 else 0
  }

  function Unverified(d: DependencyFacts): nat {
    if d.isVerified.GetOr(false) then 0 else 1
  }

  function UnverifiedCount(deps: seq<DependencyFacts>): nat {
    Sum(Apply(Unverified, deps))
  }

  /** Five points for each unverified dependency, at most 15. */
  function DependencyScore(deps: seq<DependencyFacts>): nat {
    var n := 5 * UnverifiedCount(deps);
    if n < 15 then n else 15
  }

  const U32: nat := 0x1_0000_0000

  /** The dependency score as the machine computes it from a count: cast to 32
      bits and multiplied with wrap-around. */
  function WrappedScore(unverified: nat): nat {
    var product := (unverified % U32) * 5 % U32;
    if product < 15 then product else 15
  }

  lemma {:induction false} Remainder(x: nat, q: nat, r: nat)
    requires x == q * U32 + r && r < U32
    ensures x % U32 == r
  {
  }

  lemma {:induction false} ProductWraps(n: nat)
    ensures (n % U32) * 5 % U32 == 5 * n % U32
  {
    var q, r := n / U32, n % U32;
    var q', r' := 5 * r / U32, 5 * r % U32;
    assert 5 * n == (5 * q + q') * U32 + r';
    Remainder(5 * n, 5 * q + q', r');
  }

  /** It is the intended min(15, 5n) unless the product wraps around to less than 15. */
  lemma {:induction false} WrapMatters(unverified: nat)
    ensures 5 * unverified < U32 ==> WrappedScore(unverified) == if unverified < 3 then 5 * unverified else 15
    ensures WrappedScore(unverified) == (if unverified < 3 then 5 * unverified else 15)
       <==> unverified < 3 || 5 * unverified % U32 >= 15
  {
    ProductWraps(unverified);
    if 5 * unverified < U32 { Remainder(5 * unverified, 0, 5 * unverified); }
  }

  function AtMost100(n: nat): nat {
    if n < 100 then n else 100
  }

  /** The score of a report. */
  ghost function Score(facts: Facts, detail: Option<Detail>, deps: seq<DependencyFacts>): nat {
    AtMost100(FactsScore(facts) + DetailScore(detail) + WrappedScore(UnverifiedCount(deps)))
  }

  /** The score that the points of the parts are meant to add up to. */
  ghost function IntendedScore(facts: Facts, detail: Option<Detail>, deps: seq<DependencyFacts>): nat {
    AtMost100(FactsScore(facts) + DetailScore(detail) + DependencyScore(deps))
  }

  /** They agree unless the dependency score wraps around and the other parts do
      not reach 100 without it. */
  lemma {:induction false} ScoreIntended(facts: Facts, detail: Option<Detail>, deps: seq<DependencyFacts>)
    ensures var n := UnverifiedCount(deps);
      var fits := n < 3 || 5 * n % U32 >= 15;
      var full := FactsScore(facts) + DetailScore(detail) + WrappedScore(n) >= 100;
      Score(facts, detail, deps) == IntendedScore(facts, detail, deps) <==> fits || full
    ensures 5 * UnverifiedCount(deps) < U32 ==> Score(facts, detail, deps) == IntendedScore(facts, detail, deps)
  {
    WrapMatters(UnverifiedCount(deps));
  }

  // ---- findings account for the score ----------------------------------------------------

  function Reported(f: Option<string>): Finding {
    Finding(Vulnerability, SeverityOf(f))
  }

  /** What one finding stands for; critical and high vulnerabilities and
      dependencies are counted together, not one by one. */
  function Weigh(f: Finding): nat {
    match f.category
    case Verification => 20
    case Operational => 25
    case Reputation => if f.severity == "high" then 25 else 15
    case Maintenance => if f.severity == "medium" then 15 else 8
    case Audit => if f.severity == "high" then 30 else 15
    case Privilege => 10
    case Vulnerability => if f.severity == "medium" then 10 else 0
    case Dependency => 0
  }

  /** The points of every finding that is not counted together with others. */
  lemma {:induction false} WeighTable()
    ensures Weigh(Finding(Verification, "medium")) == 20 && Weigh(Finding(Operational, "high")) == 25
    ensures Weigh(Finding(Reputation, "high")) == 25 && Weigh(Finding(Reputation, "medium")) == 15
    ensures Weigh(Finding(Maintenance, "medium")) == 15 && Weigh(Finding(Maintenance, "low")) == 8
    ensures Weigh(Finding(Audit, "high")) == 30 && Weigh(Finding(Audit, "medium")) == 15
    ensures Weigh(Finding(Privilege, "medium")) == 10 && Weigh(Finding(Vulnerability, "medium")) == 10
    ensures Points([Finding(Vulnerability, "critical")]) == 40 && Points([Finding(Vulnerability, "high")]) == 20
    ensures FromScore(24) == Low && FromScore(25) == Medium && FromScore(50) == High && FromScore(75) == Critical
  {
    WeighedSnoc([], Finding(Vulnerability, "critical"));
    WeighedSnoc([], Finding(Vulnerability, "high"));
    assert [] + [Finding(Vulnerability, "critical")] == [Finding(Vulnerability, "critical")];
    assert [] + [Finding(Vulnerability, "high")] == [Finding(Vulnerability, "high")];
    assert "critical"[0] != "high"[0] && "medium"[0] != "high"[0] && "medium"[0] != "critical"[0];
  }

  function Weighed(findings: seq<Finding>): nat {
    Sum(Apply(Weigh, findings))
  }

  /** What a reader of the findings adds up, dependencies apart. */
  function Points(findings: seq<Finding>): nat {
    Weighed(findings)
    + (if Finding(Vulnerability, "critical") in findings then 40 else 0)
    + (if Finding(Vulnerability, "high") in findings then 20 else 0)
  }

  /** Findings that are neither vulnerabilities nor dependencies. */
  ghost predicate Plain(findings: seq<Finding>) {
    forall f :: f in findings ==> !f.category.Vulnerability? && !f.category.Dependency?
  }

  ghost predicate NoDependency(findings: seq<Finding>) {
    forall f :: f in findings ==> !f.category.Dependency?
  }

  lemma {:induction false} WeighedJoin(a: seq<Finding>, b: seq<Finding>)
    ensures Weighed(a + b) == Weighed(a) + Weighed(b)
  {
    assert Apply(Weigh, a + b) == Apply(Weigh, a) + Apply(Weigh, b);
    SumAppend(Apply(Weigh, a), Apply(Weigh, b));
  }

  lemma {:induction false} WeighedSnoc(findings: seq<Finding>, f: Finding)
    ensures Weighed(findings + [f]) == Weighed(findings) + Weigh(f)
  {
    WeighedJoin(findings, [f]);
    assert Apply(Weigh, [f]) == [Weigh(f)] && [Weigh(f)][1..] == [];
    assert Weighed([f]) == Weigh(f) + Sum([]);
  }

  lemma {:induction false} OneFinding(f: Finding)
    ensures Weighed([f]) == Weigh(f)
    ensures !f.category.Vulnerability? ==> Points([f]) == Weigh(f)
  {
    WeighedSnoc([], f);
    assert [] + [f] == [f];
  }

  /** The reported vulnerabilities stand for what the scan scores. */
  lemma {:induction false} ReportedScan(findings: seq<Option<string>>)
    ensures Points(Apply(Reported, findings)) == ScanScore(findings)
  {
    if findings != [] {
      var n := |findings| - 1;
      ReportedScan(findings[..n]);
      assert findings[..n + 1] == findings;
      ScanStep(findings, n);
      var before, f := Apply(Reported, findings[..n]), Reported(findings[n]);
      WeighedSnoc(before, f);
      SeenSeverity(findings[..n], "critical");
      SeenSeverity(findings[..n], "high");
    }
  }

  lemma {:induction false} SeenSeverity(findings: seq<Option<string>>, severity: string)
    ensures Finding(Vulnerability, severity) in Apply(Reported, findings) <==> CountOf(findings, severity) > 0
  {
    if findings != [] {
      var n := |findings| - 1;
      SeenSeverity(findings[..n], severity);
      assert findings[..n + 1] == findings == findings[..n] + [findings[n]];
      CountSnoc(findings[..n], findings[n]);
      assert Apply(Reported, findings) == Apply(Reported, findings[..n]) + [Reported(findings[n])];
    }
  }

  lemma {:induction false} PointsJoin(plain: seq<Finding>, others: seq<Finding>)
    requires Plain(plain)
    ensures Points(plain + others) == Weighed(plain) + Points(others)
    ensures Points(others + plain) == Weighed(plain) + Points(others)
    ensures Points(plain) == Weighed(plain)
  {
    WeighedJoin(plain, others);
    WeighedJoin(others, plain);
  }

  // ---- which findings are reported --------------------------------------------------------

  function When(condition: bool, f: Finding): seq<Finding> {
    if condition then [f] else []
  }

  function AgeFindings(ageDays: Option<nat>): seq<Finding> {
    When(ageDays.Some? && ageDays.value > 730, Finding(Maintenance, "medium"))
    + When(ageDays.Some? && 365 < ageDays.value <= 730, Finding(Maintenance, "low"))
  }

  function StatusFindings(isVerified: Option<bool>, isMaintenance: Option<bool>): seq<Finding> {
    When(isVerified != Some(true), Finding(Verification, "medium"))
    + When(isMaintenance == Some(true), Finding(Operational, "high"))
  }

  function HealthFindings(health: int): seq<Finding> {
    When(health < 20, Finding(Reputation, "high")) + When(20 <= health < 50, Finding(Reputation, "medium"))
  }

  function FactsFindings(facts: Facts): seq<Finding> {
    StatusFindings(facts.isVerified, facts.isMaintenance) + HealthFindings(facts.healthScore.GetOr(0))
    + AgeFindings(facts.ageDays)
  }

  function AuditFindings(passed: Option<bool>): seq<Finding> {
    When(passed == Some(false), Finding(Audit, "high")) + When(passed == None, Finding(Audit, "medium"))
  }

  ghost function DetailFindings(detail: Option<Detail>): seq<Finding> {
    match detail
    case None => [Finding(Audit, "medium")]
    case Some(d) =>
      AuditFindings(d.auditPassed) + Apply(Reported, d.scan.GetOr([]))
      + When(HasPrivileged(d.functions.GetOr([])), Finding(Privilege, "medium"))
  }

  function DependencyFindings(deps: seq<DependencyFacts>): seq<Finding> {
    When(UnverifiedCount(deps) > 0,
         Finding(Dependency, if WrappedScore(UnverifiedCount(deps)) >= 10 then "medium" else "low"))
  }

  ghost predicate FactsReported(findings: seq<Finding>, facts: Facts) {
    && (Finding(Verification, "medium") in findings <==> facts.isVerified != Some(true))
    && (Finding(Operational, "high") in findings <==> facts.isMaintenance == Some(true))
    && (Finding(Reputation, "high") in findings <==> facts.healthScore.None? || facts.healthScore.value < 20)
    && (Finding(Reputation, "medium") in findings <==> facts.healthScore.Some? && 20 <= facts.healthScore.value < 50)
    && (Finding(Maintenance, "medium") in findings <==> facts.ageDays.Some? && facts.ageDays.value > 730)
    && (Finding(Maintenance, "low") in findings <==> facts.ageDays.Some? && 365 < facts.ageDays.value <= 730)
  }

  ghost predicate DetailReported(findings: seq<Finding>, detail: Option<Detail>) {
    && (Finding(Audit, "high") in findings <==> detail.Some? && detail.value.auditPassed == Some(false))
    && (Finding(Audit, "medium") in findings <==> detail.None? || detail.value.auditPassed == None)
    && (forall severity :: Finding(Vulnerability, severity) in findings <==>
          && detail.Some? && detail.value.scan.Some?
          && (Some(severity) in detail.value.scan.value || (severity == "info" && None in detail.value.scan.value)))
    && (Finding(Privilege, "medium") in findings <==>
          detail.Some? && detail.value.functions.Some? && HasPrivileged(detail.value.functions.value))
  }

  lemma {:induction false} StatusMember(isVerified: Option<bool>, isMaintenance: Option<bool>, f: Finding)
    ensures f in StatusFindings(isVerified, isMaintenance) <==>
      || (f == Finding(Verification, "medium") && isVerified != Some(true))
      || (f == Finding(Operational, "high") && isMaintenance == Some(true))
  {
  }

  lemma {:induction false} HealthMember(health: int, f: Finding)
    ensures f in HealthFindings(health) <==>
      || (f == Finding(Reputation, "high") && health < 20)
      || (f == Finding(Reputation, "medium") && 20 <= health < 50)
  {
  }

  lemma {:induction false} AgeMember(ageDays: Option<nat>, f: Finding)
    ensures f in AgeFindings(ageDays) <==>
      || (f == Finding(Maintenance, "medium") && ageDays.Some? && ageDays.value > 730)
      || (f == Finding(Maintenance, "low") && ageDays.Some? && 365 < ageDays.value <= 730)
  {
  }

  lemma {:induction false} FactsMember(facts: Facts, f: Finding)
    ensures f in FactsFindings(facts) <==>
      || f in StatusFindings(facts.isVerified, facts.isMaintenance)
      || f in HealthFindings(facts.healthScore.GetOr(0))
      || f in AgeFindings(facts.ageDays)
    ensures f in FactsFindings(facts) ==>
      f.category.Verification? || f.category.Operational? || f.category.Reputation? || f.category.Maintenance?
  {
    StatusMember(facts.isVerified, facts.isMaintenance, f);
    HealthMember(facts.healthScore.GetOr(0), f);
    AgeMember(facts.ageDays, f);
  }

  lemma {:induction false} FactsFindingIs(facts: Facts, f: Finding)
    ensures f.category.Verification? || f.category.Operational? ==>
      (f in FactsFindings(facts) <==> f in StatusFindings(facts.isVerified, facts.isMaintenance))
    ensures f.category.Reputation? ==> (f in FactsFindings(facts) <==> f in HealthFindings(facts.healthScore.GetOr(0)))
    ensures f.category.Maintenance? ==> (f in FactsFindings(facts) <==> f in AgeFindings(facts.ageDays))
  {
    FactsMember(facts, f);
    StatusMember(facts.isVerified, facts.isMaintenance, f);
    HealthMember(facts.healthScore.GetOr(0), f);
    AgeMember(facts.ageDays, f);
  }

  lemma {:induction false} StatusFound(facts: Facts)
    ensures Finding(Verification, "medium") in FactsFindings(facts) <==> facts.isVerified != Some(true)
    ensures Finding(Operational, "high") in FactsFindings(facts) <==> facts.isMaintenance == Some(true)
  {
    var v, o := Finding(Verification, "medium"), Finding(Operational, "high");
    FactsFindingIs(facts, v);
    FactsFindingIs(facts, o);
    StatusMember(facts.isVerified, facts.isMaintenance, v);
    StatusMember(facts.isVerified, facts.isMaintenance, o);
  }

  lemma {:induction false} HealthFound(facts: Facts)
    ensures Finding(Reputation, "high") in FactsFindings(facts) <==> facts.healthScore.None? || facts.healthScore.value < 20
    ensures Finding(Reputation, "medium") in FactsFindings(facts) <==>
      facts.healthScore.Some? && 20 <= facts.healthScore.value < 50
  {
    var h, m := Finding(Reputation, "high"), Finding(Reputation, "medium");
    FactsFindingIs(facts, h);
    FactsFindingIs(facts, m);
    HealthMember(facts.healthScore.GetOr(0), h);
    HealthMember(facts.healthScore.GetOr(0), m);
    assert h.severity[0] != m.severity[0];
  }

  lemma {:induction false} AgeFound(facts: Facts)
    ensures Finding(Maintenance, "medium") in FactsFindings(facts) <==> facts.ageDays.Some? && facts.ageDays.value > 730
    ensures Finding(Maintenance, "low") in FactsFindings(facts) <==> facts.ageDays.Some? && 365 < facts.ageDays.value <= 730
  {
    var m, l := Finding(Maintenance, "medium"), Finding(Maintenance, "low");
    FactsFindingIs(facts, m);
    FactsFindingIs(facts, l);
    AgeMember(facts.ageDays, m);
    AgeMember(facts.ageDays, l);
    assert m.severity[0] != l.severity[0];
  }

  lemma {:induction false} FactsFound(facts: Facts)
    ensures FactsReported(FactsFindings(facts), facts)
    ensures forall f :: f in FactsFindings(facts) ==>
      f.category.Verification? || f.category.Operational? || f.category.Reputation? || f.category.Maintenance?
  {
    StatusFound(facts);
    HealthFound(facts);
    AgeFound(facts);
    forall f | f in FactsFindings(facts)
      ensures f.category.Verification? || f.category.Operational? || f.category.Reputation? || f.category.Maintenance?
    {
      FactsMember(facts, f);
    }
  }

  lemma {:induction false} ReportedSeverity(scan: seq<Option<string>>, severity: string)
    ensures Finding(Vulnerability, severity) in Apply(Reported, scan) <==>
      Some(severity) in scan || (severity == "info" && None in scan)
  {
    var reported := Apply(Reported, scan);
    if Finding(Vulnerability, severity) in reported {
      var i :| 0 <= i < |reported| && reported[i] == Finding(Vulnerability, severity);
      assert reported[i] == Reported(scan[i]) && scan[i] in scan;
    }
    if Some(severity) in scan {
      var i :| 0 <= i < |scan| && scan[i] == Some(severity);
      assert reported[i] == Reported(scan[i]);
    }
    if severity == "info" && None in scan {
      var i :| 0 <= i < |scan| && scan[i] == None;
      assert reported[i] == Reported(scan[i]);
    }
  }

  lemma {:induction false} DetailFound(detail: Option<Detail>)
    ensures DetailReported(DetailFindings(detail), detail)
    ensures forall f :: f in DetailFindings(detail) ==> f.category.Audit? || f.category.Vulnerability? || f.category.Privilege?
  {
    if detail.Some? {
      var scan := detail.value.scan.GetOr([]);
      assert !HasPrivileged([]);
      forall severity ensures Finding(Vulnerability, severity) in Apply(Reported, scan) <==>
        Some(severity) in scan || (severity == "info" && None in scan)
      {
        ReportedSeverity(scan, severity);
      }
      assert forall f :: f in Apply(Reported, scan) ==> f.category.Vulnerability?;
    }
  }

  predicate OfFacts(f: Finding) {
    f.category.Verification? || f.category.Operational? || f.category.Reputation? || f.category.Maintenance?
  }

  ghost predicate NoFacts(findings: seq<Finding>) {
    forall f :: f in findings ==> !OfFacts(f)
  }

  lemma {:induction false} FactsReportedAmong(findings: seq<Finding>, others: seq<Finding>, facts: Facts)
    requires FactsReported(findings, facts) && NoFacts(others)
    ensures FactsReported(findings + others, facts)
  {
  }

  predicate OfDetail(f: Finding) {
    f.category.Audit? || f.category.Vulnerability? || f.category.Privilege?
  }

  ghost predicate NoDetail(findings: seq<Finding>) {
    forall f :: f in findings ==> !OfDetail(f)
  }

  lemma {:induction false} SameMembers(before: seq<Finding>, findings: seq<Finding>, after: seq<Finding>, f: Finding)
    requires NoDetail(before) && NoDetail(after) && OfDetail(f)
    ensures f in before + findings + after <==> f in findings
  {
  }

  lemma {:induction false} DetailReportedAmong(before: seq<Finding>, findings: seq<Finding>, after: seq<Finding>,
                                               detail: Option<Detail>)
    requires DetailReported(findings, detail) && NoDetail(before) && NoDetail(after)
    ensures DetailReported(before + findings + after, detail)
  {
    SameMembers(before, findings, after, Finding(Audit, "high"));
    SameMembers(before, findings, after, Finding(Audit, "medium"));
    SameMembers(before, findings, after, Finding(Privilege, "medium"));
    forall severity
      ensures Finding(Vulnerability, severity) in before + findings + after <==> Finding(Vulnerability, severity) in findings
    {
      SameMembers(before, findings, after, Finding(Vulnerability, severity));
    }
  }

  ghost function AllFindings(facts: Facts, detail: Option<Detail>, deps: seq<DependencyFacts>): seq<Finding> {
    FactsFindings(facts) + DetailFindings(detail) + DependencyFindings(deps)
  }

  lemma {:induction false} NoFactsElsewhere(detail: Option<Detail>, deps: seq<DependencyFacts>)
    ensures NoFacts(DetailFindings(detail) + DependencyFindings(deps))
  {
    DetailFound(detail);
  }

  lemma {:induction false} AllFacts(facts: Facts, detail: Option<Detail>, deps: seq<DependencyFacts>)
    ensures FactsReported(AllFindings(facts, detail, deps), facts)
  {
    var a, others := FactsFindings(facts), DetailFindings(detail) + DependencyFindings(deps);
    FactsFound(facts);
    NoFactsElsewhere(detail, deps);
    FactsReportedAmong(a, others, facts);
    assert AllFindings(facts, detail, deps) == a + others;
  }

  lemma {:induction false} NoDetailInFacts(facts: Facts)
    ensures NoDetail(FactsFindings(facts))
  {
    forall f | f in FactsFindings(facts) ensures !OfDetail(f) {
      FactsMember(facts, f);
    }
  }

  lemma {:induction false} NoDetailInDependencies(deps: seq<DependencyFacts>)
    ensures NoDetail(DependencyFindings(deps))
  {
  }

  lemma {:induction false} DetailExplained(detail: Option<Detail>)
    ensures DetailReported(DetailFindings(detail), detail)
  {
    DetailFound(detail);
  }

  lemma {:induction false} AllDetail(facts: Facts, detail: Option<Detail>, deps: seq<DependencyFacts>)
    ensures DetailReported(AllFindings(facts, detail, deps), detail)
  {
    NoDetailInFacts(facts);
    NoDetailInDependencies(deps);
    DetailExplained(detail);
    DetailReportedAmong(FactsFindings(facts), DetailFindings(detail), DependencyFindings(deps), detail);
  }

  /** Each finding of a report with the fact that calls for it. */
  ghost predicate Explained(findings: seq<Finding>, facts: Facts, detail: Option<Detail>, deps: seq<DependencyFacts>) {
    && FactsReported(findings, facts) && DetailReported(findings, detail)
    && (NoDependency(findings) <==> forall d :: d in deps ==> d.isVerified == Some(true))
  }

  lemma {:induction false} AllExplained(facts: Facts, detail: Option<Detail>, deps: seq<DependencyFacts>)
    ensures Explained(AllFindings(facts, detail, deps), facts, detail, deps)
  {
    AllFacts(facts, detail, deps);
    AllDetail(facts, detail, deps);
    assert NoDependency(AllFindings(facts, detail, deps)) <==> UnverifiedCount(deps) == 0 by {
      FactsFound(facts);
      DetailFound(detail);
      var last := DependencyFindings(deps);
      assert UnverifiedCount(deps) > 0 ==> last[0] in AllFindings(facts, detail, deps);
    }
    SomeUnverified(deps);
  }

  lemma {:induction false} SomeUnverified(deps: seq<DependencyFacts>)
    ensures UnverifiedCount(deps) > 0 <==> exists d :: d in deps && d.isVerified != Some(true)
  {
    if deps != [] {
      var front, last := deps[..|deps| - 1], deps[|deps| - 1];
      assert deps == front + [last];
      SomeUnverified(front);
      UnverifiedSnoc(front, last);
    }
  }

  // ---- the report, observation by observation ------------------------------------------

  function Cap(n: nat): nat {
    if n < MAX_U32 then n else MAX_U32
  }

  function SaturatingAdd(a: nat, b: nat): nat {
    Cap(a + b)
  }

  /** What a scan finding adds when the flags say which severities were seen. */
  function Step(severity: string, critical: bool, high: bool): nat {
    match severity
    case "critical" => if critical then 0 else 40
    case "high" => if high then 0 else 20
    case "medium" => 10
    case _ => 0
  }

  method ScoreScan(start: nat, findings: seq<Option<string>>) returns (score: nat, reported: seq<Finding>)
    requires start <= MAX_U32
    ensures score == Cap(start + ScanScore(findings))
    ensures reported == Apply(Reported, findings)
  {
    score, reported := start, [];
    var critAdded, highAdded := false, false;
    for i := 0 to |findings|
      invariant reported == Apply(Reported, findings[..i])
      invariant critAdded <==> CountOf(findings[..i], "critical") > 0
      invariant highAdded <==> CountOf(findings[..i], "high") > 0
      invariant score == Cap(start + ScanScore(findings[..i]))
    {
      var severity := SeverityOf(findings[i]);
      ScanStep(findings, i);
      reported := reported + [Finding(Vulnerability, severity)];
      match severity {
        case "critical" =>
          if !critAdded {
            score := SaturatingAdd(score, 40);
            critAdded := true;
          }
        case "high" =>
          if !highAdded {
            score := SaturatingAdd(score, 20);
            highAdded := true;
          }
        case "medium" =>
          score := SaturatingAdd(score, 10);
        case _ =>
      }
    }
    assert findings[..|findings|] == findings;
  }

  lemma {:induction false} ScanStep(findings: seq<Option<string>>, i: nat)
    requires i < |findings|
    ensures var before, after, severity := findings[..i], findings[..i + 1], SeverityOf(findings[i]);
      && Apply(Reported, after) == Apply(Reported, before) + [Finding(Vulnerability, severity)]
      && (CountOf(after, "critical") > 0 <==> CountOf(before, "critical") > 0 || severity == "critical")
      && (CountOf(after, "high") > 0 <==> CountOf(before, "high") > 0 || severity == "high")
      && ScanScore(after) == ScanScore(before)
           + Step(severity, CountOf(before, "critical") > 0, CountOf(before, "high") > 0)
  {
    assert findings[..i + 1] == findings[..i] + [findings[i]];
    CountSnoc(findings[..i], findings[i]);
  }

  method ScoreStatus(isVerified: Option<bool>, isMaintenance: Option<bool>) returns (score: nat, findings: seq<Finding>)
    ensures score == Weighed(findings) == StatusScore(isVerified, isMaintenance)
    ensures Plain(findings) && findings == StatusFindings(isVerified, isMaintenance)
  {
    score, findings := 0, [];
    if !isVerified.GetOr(false) {
      WeighedSnoc(findings, Finding(Verification, "medium"));
      findings := findings + [Finding(Verification, "medium")];
      score := SaturatingAdd(score, 20);
    }
    if isMaintenance.GetOr(false) {
      WeighedSnoc(findings, Finding(Operational, "high"));
      findings := findings + [Finding(Operational, "high")];
      score := SaturatingAdd(score, 25);
    }
  }

  method ScoreHealth(start: nat, soFar: seq<Finding>, health: int) returns (score: nat, findings: seq<Finding>)
    requires start == Weighed(soFar) <= 45 && Plain(soFar)
    ensures score == Weighed(findings) == start + HealthScore(health)
    ensures Plain(findings) && findings == soFar + HealthFindings(health)
  {
    score, findings := start, soFar;
    if health < 20 {
      WeighedSnoc(findings, Finding(Reputation, "high"));
      findings := findings + [Finding(Reputation, "high")];
      score := SaturatingAdd(score, 25);
    } else if health < 50 {
      WeighedSnoc(findings, Finding(Reputation, "medium"));
      findings := findings + [Finding(Reputation, "medium")];
      score := SaturatingAdd(score, 15);
    }
  }

  method ScoreFacts(facts: Facts) returns (score: nat, findings: seq<Finding>)
    ensures score == FactsScore(facts) == Weighed(findings)
    ensures Plain(findings) && findings == FactsFindings(facts)
  {
    score, findings := ScoreStatus(facts.isVerified, facts.isMaintenance);
    score, findings := ScoreHealth(score, findings, facts.healthScore.GetOr(0));
    score, findings := ScoreAge(score, findings, facts.ageDays);
  }

  function AgeScore(ageDays: Option<nat>): nat {
    if ageDays.None? then 0 else if ageDays.value > 730 then 15 else if ageDays.value > 365 then 8 else 0
  }

  method ScoreAge(start: nat, soFar: seq<Finding>, ageDays: Option<nat>) returns (score: nat, findings: seq<Finding>)
    requires start == Weighed(soFar) <= 70 && Plain(soFar)
    ensures score == Weighed(findings) == start + AgeScore(ageDays)
    ensures Plain(findings) && findings == soFar + AgeFindings(ageDays)
  {
    score, findings := start, soFar;
    if ageDays.Some? {
      if ageDays.value > 730 {
        WeighedSnoc(findings, Finding(Maintenance, "medium"));
        findings := findings + [Finding(Maintenance, "medium")];
        score := SaturatingAdd(score, 15);
      } else if ageDays.value > 365 {
        WeighedSnoc(findings, Finding(Maintenance, "low"));
        findings := findings + [Finding(Maintenance, "low")];
        score := SaturatingAdd(score, 8);
      }
    }
  }

  method AnyPrivileged(functions: seq<AbiFunction>) returns (found: bool)
    ensures found <==> HasPrivileged(functions)
  {
    var privileged: seq<string> := [];
    for i := 0 to |functions|
      invariant privileged != [] <==>
        exists j :: 0 <= j < i && functions[j].name.Some? && PrivilegedName(functions[j].name.value)
    {
      if functions[i].name.Some? && PrivilegedName(functions[i].name.value) {
        privileged := privileged + [functions[i].name.value];
      }
    }
    found := privileged != [];
  }

  method CountUnverified(deps: seq<DependencyFacts>) returns (count: nat)
    ensures count == UnverifiedCount(deps)
  {
    count := 0;
    for i := 0 to |deps|
      invariant count == Sum(Apply(Unverified, deps[..i]))
    {
      assert Apply(Unverified, deps[..i + 1]) == Apply(Unverified, deps[..i]) + [Unverified(deps[i])];
      SumAppend(Apply(Unverified, deps[..i]), [Unverified(deps[i])]);
      assert [Unverified(deps[i])][1..] == [];
      if !deps[i].isVerified.GetOr(false) {
        count := count + 1;
      }
    }
    assert deps[..|deps|] == deps;
  }

  method ScoreAudit(start: nat, passed: Option<bool>) returns (score: nat, findings: seq<Finding>)
    requires start <= MAX_U32
    ensures score == Cap(start + AuditScore(passed)) && Weighed(findings) == AuditScore(passed)
    ensures Plain(findings) && findings == AuditFindings(passed)
  {
    score, findings := start, [];
    match passed {
      case Some(true) =>
      case Some(false) =>
        WeighedSnoc([], Finding(Audit, "high"));
        findings := findings + [Finding(Audit, "high")];
        score := SaturatingAdd(score, 30);
      case None =>
        WeighedSnoc([], Finding(Audit, "medium"));
        findings := findings + [Finding(Audit, "medium")];
        score := SaturatingAdd(score, 15);
    }
  }

  method ScorePrivileges(start: nat, soFar: seq<Finding>, functions: seq<AbiFunction>)
      returns (score: nat, findings: seq<Finding>)
    requires start <= MAX_U32 && NoDependency(soFar)
    ensures score == Cap(start + if HasPrivileged(functions) then 10 else 0)
    ensures Points(findings) == Points(soFar) + (if HasPrivileged(functions) then 10 else 0)
    ensures NoDependency(findings)
    ensures findings == soFar + When(HasPrivileged(functions), Finding(Privilege, "medium"))
  {
    score, findings := start, soFar;
    var privileged := AnyPrivileged(functions);
    if privileged {
      var f := Finding(Privilege, "medium");
      OneFinding(f);
      PointsJoin([f], findings);
      findings := findings + [f];
      score := SaturatingAdd(score, 10);
    }
  }

  method ScoreDetail(start: nat, detail: Option<Detail>) returns (score: nat, findings: seq<Finding>)
    requires start <= MAX_U32
    ensures score == Cap(start + DetailScore(detail))
    ensures Points(findings) == DetailScore(detail) && NoDependency(findings)
    ensures findings == DetailFindings(detail)
  {
    if detail.None? {
      score, findings := SaturatingAdd(start, 15), [Finding(Audit, "medium")];
      OneFinding(findings[0]);
    } else {
      score, findings := ScoreKnown(start, detail.value);
    }
  }

  method ScoreKnown(start: nat, d: Detail) returns (score: nat, findings: seq<Finding>)
    requires start <= MAX_U32
    ensures score == Cap(start + DetailScore(Some(d)))
    ensures Points(findings) == DetailScore(Some(d)) && NoDependency(findings)
    ensures findings == DetailFindings(Some(d))
  {
    score, findings := ScoreAudit(start, d.auditPassed);
    var reported;
    score, reported := ScoreScan(score, d.scan.GetOr([]));
    ReportedScan(d.scan.GetOr([]));
    PointsJoin(findings, reported);
    findings := findings + reported;
    score, findings := ScorePrivileges(score, findings, d.functions.GetOr([]));
  }

  method ScoreDependencies(start: nat, soFar: seq<Finding>, deps: seq<DependencyFacts>)
      returns (score: nat, findings: seq<Finding>, depScore: nat)
    requires start <= MAX_U32 && NoDependency(soFar)
    ensures depScore == WrappedScore(UnverifiedCount(deps)) && score == Cap(start + depScore)
    ensures Points(findings) == Points(soFar)
    ensures UnverifiedCount(deps) == 0 <==> NoDependency(findings)
    ensures findings == soFar + DependencyFindings(deps)
  {
    score, findings := start, soFar;
    var unverified := CountUnverified(deps);
    var product := (unverified % U32) * 5 % U32;
    depScore := if product < 15 then product else 15;
    if unverified > 0 {
      var f := Finding(Dependency, if depScore >= 10 then "medium" else "low");
      WeighedSnoc(findings, f);
      findings := findings + [f];
      assert f in findings;
      score := SaturatingAdd(score, depScore);
    }
  }

  method ScoreAll(facts: Facts, detail: Option<Detail>, deps: seq<DependencyFacts>)
      returns (score: nat, findings: seq<Finding>, depScore: nat)
    ensures depScore == WrappedScore(UnverifiedCount(deps))
    ensures score == Cap(FactsScore(facts) + DetailScore(detail) + depScore)
    ensures findings == AllFindings(facts, detail, deps)
    ensures Points(findings) == FactsScore(facts) + DetailScore(detail)
  {
    score, findings := ScoreFacts(facts);
    var more;
    score, more := ScoreDetail(score, detail);
    PointsJoin(findings, more);
    findings := findings + more;
    score, findings, depScore := ScoreDependencies(score, findings, deps);
  }

  /** The findings account for the whole score: a reader who adds up what they
      stand for, and the dependency score, gets it back. */
  method BuildReport(facts: Facts, detail: Option<Detail>, deps: seq<DependencyFacts>) returns (report: Report)
    ensures report.dependencyScore == WrappedScore(UnverifiedCount(deps))
    ensures report.score == Score(facts, detail, deps)
    ensures 5 * UnverifiedCount(deps) < U32 ==>
      report.dependencyScore == DependencyScore(deps) && report.score == IntendedScore(facts, detail, deps)
    ensures report.score == AtMost100(Points(report.findings) + report.dependencyScore)
    ensures report.level == AsciiLower(FromScore(report.score).Label())
    ensures Explained(report.findings, facts, detail, deps)
  {
    var score, findings, depScore := ScoreAll(facts, detail, deps);
    AllExplained(facts, detail, deps);
    WrapMatters(UnverifiedCount(deps));
    ScoreIntended(facts, detail, deps);
    score := if score < 100 then score else 100;
    report := Report(score, AsciiLower(FromScore(score).Label()), findings, depScore);
  }

  lemma {:induction false} LoweredAppend(a: string, b: string)
    ensures Lowered(a + b) == Lowered(a) + Lowered(b)
  {
    if a == "" {
      assert a + b == b;
    } else {
      assert (a + b)[1..] == a[1..] + b;
      LoweredAppend(a[1..], b);
    }
  }

  /** A name that contains a keyword, in whatever case it is written, is privileged. */
  lemma {:induction false} KeywordInside(before: string, written: string, after: string, k: nat)
    requires k < |PRIVILEGE_KEYWORDS| && Lowered(written) == PRIVILEGE_KEYWORDS[k]
    ensures PrivilegedName(before + written + after)
  {
    var name := before + written + after;
    LoweredAppend(before + written, after);
    LoweredAppend(before, written);
    assert Lowered(name) == Lowered(before) + PRIVILEGE_KEYWORDS[k] + Lowered(after);
    assert OccursAt(PRIVILEGE_KEYWORDS[k], Lowered(name), |Lowered(before)|);
    assert |PRIVILEGE_KEYWORDS[k]| > 0;
  }

  /** Exactly the names whose lower case contains a keyword are privileged. */
  lemma {:induction false} PrivilegedIs(name: string)
    ensures PrivilegedName(name) <==>
      exists k, before, after :: 0 <= k < |PRIVILEGE_KEYWORDS| && Lowered(name) == before + PRIVILEGE_KEYWORDS[k] + after
    ensures (forall i :: 0 <= i < |name| ==> name[i] as int < 0x80) ==> Lowered(name) == AsciiLower(name)
  {
    var lowered := Lowered(name);
    if k, i :| 0 <= k < |PRIVILEGE_KEYWORDS| && 0 <= i < |lowered| && OccursAt(PRIVILEGE_KEYWORDS[k], lowered, i) {
      var keyword := PRIVILEGE_KEYWORDS[k];
      assert lowered == lowered[..i] + keyword + lowered[i + |keyword|..];
    }
    if k, before, after :| 0 <= k < |PRIVILEGE_KEYWORDS| && lowered == before + PRIVILEGE_KEYWORDS[k] + after {
      assert OccursAt(PRIVILEGE_KEYWORDS[k], lowered, |before|);
    }
    if forall i :: 0 <= i < |name| ==> name[i] as int < 0x80 { LoweredAscii(name); }
  }

  lemma {:induction false} LoweredAscii(name: string)
    requires forall i :: 0 <= i < |name| ==> name[i] as int < 0x80
    ensures Lowered(name) == AsciiLower(name)
  {
    if name != "" {
      var first, rest := name[0], name[1..];
      LoweredAscii(rest);
      assert Lowered(name) == [LowerChar(first)] + Lowered(rest);
      assert AsciiLower(name) == [LowerChar(first)] + AsciiLower(rest);
    }
  }

  // ---- what the score depends on ---------------------------------------------------------

  lemma {:induction false} CountSnoc(findings: seq<Option<string>>, f: Option<string>)
    ensures forall s :: CountOf(findings + [f], s) == CountOf(findings, s) + if SeverityOf(f) == s then 1 else 0
  {
    forall s ensures CountOf(findings + [f], s) == CountOf(findings, s) + if SeverityOf(f) == s then 1 else 0 {
      assert Apply(Weight(s), findings + [f]) == Apply(Weight(s), findings) + [Weight(s)(f)];
      SumAppend(Apply(Weight(s), findings), [Weight(s)(f)]);
      assert [Weight(s)(f)][1..] == [];
    }
  }

  lemma {:induction false} CountUnordered(a: seq<Option<string>>, b: seq<Option<string>>, severity: string)
    requires IsPermutation(a, b)
    ensures CountOf(a, severity) == CountOf(b, severity)
  {
    ApplyPermutation(Weight(severity), a, b);
    SumPermutation(Apply(Weight(severity), a), Apply(Weight(severity), b));
  }

  /** The order of scan findings and of dependencies does not matter. */
  lemma {:induction false} ScoreUnordered(facts: Facts, d: Detail, scan: seq<Option<string>>, scan': seq<Option<string>>,
                                          deps: seq<DependencyFacts>, deps': seq<DependencyFacts>)
    requires IsPermutation(scan, scan') && IsPermutation(deps, deps')
    ensures Score(facts, Some(d.(scan := Some(scan))), deps) == Score(facts, Some(d.(scan := Some(scan'))), deps')
    ensures UnverifiedCount(deps) == UnverifiedCount(deps')
  {
    CountUnordered(scan, scan', "critical");
    CountUnordered(scan, scan', "high");
    CountUnordered(scan, scan', "medium");
    ApplyPermutation(Unverified, deps, deps');
    SumPermutation(Apply(Unverified, deps), Apply(Unverified, deps'));
  }

  /** A further scan finding never lowers the score. */
  lemma {:induction false} ScoreMonotone(facts: Facts, d: Detail, scan: seq<Option<string>>, f: Option<string>,
                                         deps: seq<DependencyFacts>)
    ensures Score(facts, Some(d.(scan := Some(scan))), deps) <= Score(facts, Some(d.(scan := Some(scan + [f]))), deps)
  {
    CountSnoc(scan, f);
  }

  lemma {:induction false} UnverifiedSnoc(deps: seq<DependencyFacts>, dep: DependencyFacts)
    ensures UnverifiedCount(deps + [dep]) == UnverifiedCount(deps) + Unverified(dep)
  {
    assert Apply(Unverified, deps + [dep]) == Apply(Unverified, deps) + [Unverified(dep)];
    SumAppend(Apply(Unverified, deps), [Unverified(dep)]);
    assert [Unverified(dep)][1..] == [];
  }

  /** Five more, in 32 bits, wraps around for the last five remainders only. */
  lemma {:induction false} NextProduct(n: nat)
    ensures 5 * (n + 1) % U32 == if 5 * n % U32 < U32 - 5 then 5 * n % U32 + 5 else 5 * n % U32 + 5 - U32
    ensures WrappedScore(n) == (if 5 * n % U32 < 15 then 5 * n % U32 else 15)
  {
    ProductWraps(n);
    var q, r := 5 * n / U32, 5 * n % U32;
    if r < U32 - 5 {
      Remainder(5 * (n + 1), q, r + 5);
    } else {
      Remainder(5 * (n + 1), q + 1, r + 5 - U32);
    }
  }

  lemma {:induction false} NextWrapped(n: nat)
    ensures WrappedScore(n) <= WrappedScore(n + 1) <==> 5 * n % U32 < U32 - 5
  {
    NextProduct(n);
    NextProduct(n + 1);
  }

  /** A further dependency lowers the score if and only if it is unverified, the
      32-bit product wraps around at it, and the score is then below 100. */
  lemma {:induction false} DependencyMonotone(facts: Facts, detail: Option<Detail>, deps: seq<DependencyFacts>,
                                              dep: DependencyFacts)
    ensures var n := UnverifiedCount(deps);
      var wraps := 5 * n % U32 >= U32 - 5;
      var full := FactsScore(facts) + DetailScore(detail) + WrappedScore(n + 1) >= 100;
      Score(facts, detail, deps) <= Score(facts, detail, deps + [dep])
      <==> dep.isVerified == Some(true) || !wraps || full
    ensures dep.isVerified == Some(true) ==> Score(facts, detail, deps) == Score(facts, detail, deps + [dep])
  {
    UnverifiedSnoc(deps, dep);
    NextWrapped(UnverifiedCount(deps));
  }

  /** The intended score never drops. */
  lemma {:induction false} IntendedMonotone(facts: Facts, detail: Option<Detail>, deps: seq<DependencyFacts>, dep: DependencyFacts)
    ensures IntendedScore(facts, detail, deps) <= IntendedScore(facts, detail, deps + [dep])
  {
    UnverifiedSnoc(deps, dep);
  }

  const WRAPPING: nat := 858_993_459

  lemma {:induction false} AllUnverified(n: nat)
    ensures UnverifiedCount(seq(n, _ => DependencyFacts(None))) == n
  {
    if n > 0 {
      assert seq(n, _ => DependencyFacts(None)) == seq(n - 1, _ => DependencyFacts(None)) + [DependencyFacts(None)];
      AllUnverified(n - 1);
      UnverifiedSnoc(seq(n - 1, _ => DependencyFacts(None)), DependencyFacts(None));
    }
  }

  /** The smallest such case: with nothing else to score, so many unverified
      dependencies score 15, and one more scores 4. */
  lemma {:induction false} DependencyDrops(facts: Facts, detail: Option<Detail>)
    requires FactsScore(facts) == 0 && DetailScore(detail) == 0
    ensures var deps := seq(WRAPPING, _ => DependencyFacts(None));
      && Score(facts, detail, deps) == 15
      && Score(facts, detail, deps + [DependencyFacts(None)]) == 4
    ensures forall n: nat :: n < WRAPPING ==> WrappedScore(n) <= WrappedScore(n + 1)
  {
    AllUnverified(WRAPPING);
    UnverifiedSnoc(seq(WRAPPING, _ => DependencyFacts(None)), DependencyFacts(None));
    forall n: nat | n < WRAPPING ensures WrappedScore(n) <= WrappedScore(n + 1) {
      Remainder(5 * n, 0, 5 * n);
      NextWrapped(n);
    }
  }

  lemma {:induction false} LowerLabels()
    ensures AsciiLower("LOW") == "low" && AsciiLower("MEDIUM") == "medium"
    ensures AsciiLower("HIGH") == "high" && AsciiLower("CRITICAL") == "critical"
    ensures AsciiLower("low") == "low" && AsciiLower("medium") == "medium"
    ensures AsciiLower("high") == "high" && AsciiLower("critical") == "critical"
  {
  }

  /** The level printed in a report is read back as the level of its score. */
  lemma {:induction false} LabelRoundTrip(level: RiskLevel)
    ensures ParseLevel(AsciiLower(level.Label())) == Some(level)
    ensures ParseLevel(level.Label()) == Some(level)
  {
    LowerLabels();
  }

  /** The exit check, which goes through the printed label: an unreadable label
      counts as low. */
  function MeetsThreshold(report: Report, threshold: RiskLevel): bool {
    ParseLevel(AsciiLower(report.level)).GetOr(Low).Rank() >= threshold.Rank()
  }

  function LowestScore(level: RiskLevel): nat {
    match level
    case Low => 0
    case Medium => 25
    case High => 50
    case Critical => 75
  }

  /** It gives the same answer as comparing the score with the threshold's lowest score. */
  lemma {:induction false} ThresholdByScore(report: Report, threshold: RiskLevel)
    requires report.level == AsciiLower(FromScore(report.score).Label())
    ensures MeetsThreshold(report, threshold) <==> report.score >= LowestScore(threshold)
  {
    LowerLabels();
  }
}
