/** Resolving the chain that approves a claim out of its net value and the employee master. Values are paise. */
module Routing {
  import opened Domain
  import opened Text

  datatype EmployeeRef = EmployeeRef(code: string, role: Role, managerCode: Option<string>)

  ghost predicate IsKeyedByCode(directory: map<string, EmployeeRef>) {
    forall code :: code in directory ==> directory[code].code == code
  }

  /** The employee master, each person under their own code. */
  type Directory = d: map<string, EmployeeRef> | IsKeyedByCode(d) witness map[]

  datatype RoutingError = LoopsBack(code: string) | NotInMaster(code: string) | NoBand(value: int)

  // The reporting line

  /** A blank code means reporting to nobody. */
  function Truthy(code: Option<string>): Option<string> {
    if code == Some("") then None else code
  }

  /** The code reached after `k` steps up from the claimant's own manager, while there is one. */
  function Hop(claimant: EmployeeRef, directory: Directory, k: nat): Option<string> {
    if k == 0 then Truthy(claimant.managerCode)
    else
      var code := Hop(claimant, directory, k - 1);
      if code.None? || code.value !in directory then None
      else Truthy(directory[code.value].managerCode)
  }

  /** The walk reaches somebody it has already seen, the claimant included. */
  ghost predicate RepeatsAt(claimant: EmployeeRef, directory: Directory, k: nat) {
    && Hop(claimant, directory, k).Some?
    && (Hop(claimant, directory, k).value == claimant.code
        || exists j :: 0 <= j < k && Hop(claimant, directory, j) == Hop(claimant, directory, k))
  }

  ghost predicate MissingAt(claimant: EmployeeRef, directory: Directory, k: nat) {
    Hop(claimant, directory, k).Some? && Hop(claimant, directory, k).value !in directory
  }

  ghost predicate BreaksAt(claimant: EmployeeRef, directory: Directory, k: nat) {
    RepeatsAt(claimant, directory, k) || MissingAt(claimant, directory, k)
  }

  ghost predicate StopsAt(claimant: EmployeeRef, directory: Directory, k: nat) {
    Hop(claimant, directory, k).None? || BreaksAt(claimant, directory, k)
  }

  /** How far the walk gets within `n` hops before it ends or breaks. */
  ghost function Reach(claimant: EmployeeRef, directory: Directory, n: nat): (k: nat)
    ensures k <= n
    ensures forall j :: 0 <= j < k ==> !StopsAt(claimant, directory, j)
    ensures k < n ==> StopsAt(claimant, directory, k)
  {
    if n == 0 then 0
    else
      var k := Reach(claimant, directory, n - 1);
      if k < n - 1 || StopsAt(claimant, directory, n - 1) then k else n
  }

  lemma ReachIs(claimant: EmployeeRef, directory: Directory, n: nat, k: nat)
    requires k <= n && forall j :: 0 <= j < k ==> !StopsAt(claimant, directory, j)
    requires k < n ==> StopsAt(claimant, directory, k)
    ensures Reach(claimant, directory, n) == k
  {
    var reach := Reach(claimant, directory, n);
    assert !(reach < k) && !(k < reach);
  }

  /** The people at the first `n` hops. */
  ghost function Walk(claimant: EmployeeRef, directory: Directory, n: nat): (chain: seq<EmployeeRef>)
    requires forall j :: 0 <= j < n ==> !StopsAt(claimant, directory, j)
    ensures |chain| == n
    ensures forall j :: 0 <= j < n ==>
              !StopsAt(claimant, directory, j) && chain[j] == directory[Hop(claimant, directory, j).value]
  {
    if n == 0 then []
    else
      assert !StopsAt(claimant, directory, n - 1);
      Walk(claimant, directory, n - 1) + [directory[Hop(claimant, directory, n - 1).value]]
  }

  /** The reporting line: the walk, unless it breaks within the depth allowed. */
  ghost function AncestorsOf(claimant: EmployeeRef, directory: Directory, maxDepth: nat):
    Result<seq<EmployeeRef>, RoutingError>
  {
    var k := Reach(claimant, directory, maxDepth);
    if k < maxDepth && BreaksAt(claimant, directory, k) then
      var code := Hop(claimant, directory, k).value;
      Failure(if RepeatsAt(claimant, directory, k) then LoopsBack(code) else NotInMaster(code))
    else
      Success(Walk(claimant, directory, k))
  }

  /** The codes the walk has passed after `n` hops, starting with the claimant's own. */
  ghost predicate IsSeen(claimant: EmployeeRef, directory: Directory, n: nat, code: string) {
    code == claimant.code || exists j :: 0 <= j < n && Hop(claimant, directory, j) == Some(code)
  }

  lemma SeenMeansRepeated(claimant: EmployeeRef, directory: Directory, n: nat)
    requires Hop(claimant, directory, n).Some?
    ensures RepeatsAt(claimant, directory, n) <==> IsSeen(claimant, directory, n, Hop(claimant, directory, n).value)
  {
  }

  lemma OneMoreSeen(claimant: EmployeeRef, directory: Directory, n: nat)
    requires Hop(claimant, directory, n).Some?
    ensures forall c :: IsSeen(claimant, directory, n + 1, c)
                   <==> IsSeen(claimant, directory, n, c) || c == Hop(claimant, directory, n).value
  {
    forall c | IsSeen(claimant, directory, n + 1, c)
      ensures IsSeen(claimant, directory, n, c) || c == Hop(claimant, directory, n).value
    {
    }
    forall c | IsSeen(claimant, directory, n, c) || c == Hop(claimant, directory, n).value
      ensures IsSeen(claimant, directory, n + 1, c)
    {
      if c == Hop(claimant, directory, n).value {
        assert Hop(claimant, directory, n) == Some(c);
      } else if c != claimant.code {
        var j :| 0 <= j < n && Hop(claimant, directory, j) == Some(c);
        assert j < n + 1;
      }
    }
  }

  method Ancestors(claimant: EmployeeRef, directory: Directory, maxDepth: nat := 12)
    returns (r: Result<seq<EmployeeRef>, RoutingError>)
    ensures r == AncestorsOf(claimant, directory, maxDepth)
  {
    var chain: seq<EmployeeRef> := [];
    var seen := {claimant.code};
    var code := Truthy(claimant.managerCode);
    while code.Some? && |chain| < maxDepth
      invariant |chain| <= maxDepth
      invariant forall j :: 0 <= j < |chain| ==> !StopsAt(claimant, directory, j)
      invariant chain == Walk(claimant, directory, |chain|)
      invariant code == Hop(claimant, directory, |chain|)
      invariant forall c :: c in seen <==> IsSeen(claimant, directory, |chain|, c)
      decreases maxDepth - |chain|
    {
      SeenMeansRepeated(claimant, directory, |chain|);
      if code.value in seen || code.value !in directory {
        ReachIs(claimant, directory, maxDepth, |chain|);
        return Failure(if code.value in seen then LoopsBack(code.value) else NotInMaster(code.value));
      }
      OneMoreSeen(claimant, directory, |chain|);
      chain := chain + [directory[code.value]];
      seen := seen + {code.value};
      code := Truthy(directory[code.value].managerCode);
    }
    ReachIs(claimant, directory, maxDepth, |chain|);
    return Success(chain);
  }

  /** It fails exactly when a repeat or a missing code comes up within the depth, and first. */
  lemma AncestorsFailExactly(claimant: EmployeeRef, directory: Directory, maxDepth: nat)
    ensures AncestorsOf(claimant, directory, maxDepth).Failure?
       <==> exists k :: && 0 <= k < maxDepth && BreaksAt(claimant, directory, k)
                        && forall j :: 0 <= j < k ==> !StopsAt(claimant, directory, j)
  {
    var reach := Reach(claimant, directory, maxDepth);
    if exists k :: && 0 <= k < maxDepth && BreaksAt(claimant, directory, k)
                   && forall j :: 0 <= j < k ==> !StopsAt(claimant, directory, j)
    {
      var k :| && 0 <= k < maxDepth && BreaksAt(claimant, directory, k)
               && forall j :: 0 <= j < k ==> !StopsAt(claimant, directory, j);
      assert StopsAt(claimant, directory, k);
      assert reach == k;
    }
  }

  /** Nobody in a reporting line is the claimant, and nobody is in it twice. */
  lemma AncestorsAreOthers(claimant: EmployeeRef, directory: Directory, maxDepth: nat)
    requires AncestorsOf(claimant, directory, maxDepth).Success?
    ensures var line := AncestorsOf(claimant, directory, maxDepth).value;
      && |line| <= maxDepth
      && (|line| < maxDepth ==> Hop(claimant, directory, |line|).None?)
      && (forall j :: 0 <= j < |line| ==> line[j].code != claimant.code && line[j].code in directory)
      && (forall i, j :: 0 <= i < j < |line| ==> line[i].code != line[j].code)
  {
    var k := Reach(claimant, directory, maxDepth);
    var line := Walk(claimant, directory, k);
    forall j | 0 <= j < k
      ensures line[j].code != claimant.code && line[j].code in directory
      ensures Hop(claimant, directory, j) == Some(line[j].code)
    {
      assert !StopsAt(claimant, directory, j);
    }
    forall i, j | 0 <= i < j < k
      ensures line[i].code != line[j].code
    {
      assert !RepeatsAt(claimant, directory, j) by {
        assert !StopsAt(claimant, directory, j);
      }
    }
  }

  // The reporting line, told by who reports to whom

  /** The person whom the `k`-th of a line is directly above: the claimant, or the one before. */
  function Below(claimant: EmployeeRef, line: seq<EmployeeRef>, k: nat): EmployeeRef
    requires k <= |line|
  {
    if k == 0 then claimant else line[k - 1]
  }

  predicate ReportsToNobody(person: EmployeeRef) {
    person.managerCode == None || person.managerCode == Some("")
  }

  /** The claimant reports to the first, each to the next, all of them in the master and no one twice. */
  ghost predicate IsReportingLine(claimant: EmployeeRef, directory: Directory, line: seq<EmployeeRef>) {
    forall k :: 0 <= k < |line| ==> IsDirectlyAbove(claimant, directory, line, k)
  }

  ghost predicate IsDirectlyAbove(claimant: EmployeeRef, directory: Directory, line: seq<EmployeeRef>, k: nat)
    requires k < |line|
  {
    && !ReportsToNobody(Below(claimant, line, k))
    && Below(claimant, line, k).managerCode == Some(line[k].code)
    && line[k].code in directory && directory[line[k].code] == line[k]
    && !IsIn(claimant, line[..k], line[k].code)
  }

  /** The code is the claimant's or that of somebody in the line. */
  ghost predicate IsIn(claimant: EmployeeRef, line: seq<EmployeeRef>, code: string) {
    code == claimant.code || exists j :: 0 <= j < |line| && line[j].code == code
  }

  /** Along a reporting line the walk hops from person to person, and then to whom the last one reports. */
  lemma {:induction false} HopsFollowTheLine(claimant: EmployeeRef, directory: Directory, line: seq<EmployeeRef>,
                                             k: nat)
    requires IsReportingLine(claimant, directory, line) && k <= |line|
    ensures forall j :: 0 <= j < k ==> Hop(claimant, directory, j) == Some(line[j].code)
    ensures Hop(claimant, directory, k) == Truthy(Below(claimant, line, k).managerCode)
  {
    if k > 0 {
      HopsFollowTheLine(claimant, directory, line, k - 1);
      assert IsDirectlyAbove(claimant, directory, line, k - 1);
    }
  }

  lemma LineIsWalked(claimant: EmployeeRef, directory: Directory, line: seq<EmployeeRef>)
    requires IsReportingLine(claimant, directory, line)
    ensures forall j :: 0 <= j < |line| ==> !StopsAt(claimant, directory, j)
    ensures Walk(claimant, directory, |line|) == line
  {
    HopsFollowTheLine(claimant, directory, line, |line|);
    forall j | 0 <= j < |line|
      ensures !StopsAt(claimant, directory, j) && directory[Hop(claimant, directory, j).value] == line[j]
    {
      assert IsDirectlyAbove(claimant, directory, line, j);
      forall i | 0 <= i < j
        ensures Hop(claimant, directory, i) != Hop(claimant, directory, j)
      {
        assert line[..j][i] == line[i];
      }
    }
  }

  /** What the walk passes, as far as it does not stop, is a reporting line. */
  lemma WalkIsReportingLine(claimant: EmployeeRef, directory: Directory, n: nat)
    requires forall j :: 0 <= j < n ==> !StopsAt(claimant, directory, j)
    ensures IsReportingLine(claimant, directory, Walk(claimant, directory, n))
  {
    var line := Walk(claimant, directory, n);
    forall k | 0 <= k < n
      ensures IsDirectlyAbove(claimant, directory, line, k)
    {
      assert !StopsAt(claimant, directory, k);
      assert k > 0 ==> !StopsAt(claimant, directory, k - 1);
      assert Hop(claimant, directory, k) == Some(line[k].code);
      forall j | 0 <= j < k
        ensures line[..k][j].code != line[k].code
      {
        assert !StopsAt(claimant, directory, j) && Hop(claimant, directory, j) == Some(line[j].code);
        assert !RepeatsAt(claimant, directory, k);
      }
    }
  }

  /**
   * The line is found exactly when it is told by who reports to whom: from the claimant up, as far as
   * the depth allows, or to somebody who reports to nobody.
   */
  lemma ReportingLineExactly(claimant: EmployeeRef, directory: Directory, maxDepth: nat, line: seq<EmployeeRef>)
    ensures AncestorsOf(claimant, directory, maxDepth) == Success(line)
       <==> && IsReportingLine(claimant, directory, line) && |line| <= maxDepth
            && (|line| < maxDepth ==> ReportsToNobody(Below(claimant, line, |line|)))
  {
    if AncestorsOf(claimant, directory, maxDepth) == Success(line) {
      WalkIsReportingLine(claimant, directory, Reach(claimant, directory, maxDepth));
      HopsFollowTheLine(claimant, directory, line, |line|);
    }
    if && IsReportingLine(claimant, directory, line) && |line| <= maxDepth
       && (|line| < maxDepth ==> ReportsToNobody(Below(claimant, line, |line|)))
    {
      HopsFollowTheLine(claimant, directory, line, |line|);
      LineIsWalked(claimant, directory, line);
      ReachIs(claimant, directory, maxDepth, |line|);
    }
  }

  /** Where a reporting line cannot go on: whom its last member reports to, and why that is no one to add. */
  ghost predicate CannotGoOn(claimant: EmployeeRef, directory: Directory, line: seq<EmployeeRef>, e: RoutingError) {
    var top := Below(claimant, line, |line|);
    && IsReportingLine(claimant, directory, line) && !ReportsToNobody(top)
    && match e
       case LoopsBack(code) => top.managerCode == Some(code) && IsIn(claimant, line, code)
       case NotInMaster(code) =>
         top.managerCode == Some(code) && !IsIn(claimant, line, code) && code !in directory
       case NoBand(_) => false
  }

  /** The walk fails exactly when a line shorter than the depth cannot go on, and says why. */
  lemma ReportingLineFailsExactly(claimant: EmployeeRef, directory: Directory, maxDepth: nat, e: RoutingError)
    ensures AncestorsOf(claimant, directory, maxDepth) == Failure(e)
       <==> exists line :: |line| < maxDepth && CannotGoOn(claimant, directory, line, e)
  {
    if AncestorsOf(claimant, directory, maxDepth) == Failure(e) {
      var k := Reach(claimant, directory, maxDepth);
      var line := Walk(claimant, directory, k);
      WalkIsReportingLine(claimant, directory, k);
      HopsFollowTheLine(claimant, directory, line, k);
      SeenOnTheLine(claimant, directory, line);
      assert CannotGoOn(claimant, directory, line, e);
    }
    forall line | |line| < maxDepth && CannotGoOn(claimant, directory, line, e)
      ensures AncestorsOf(claimant, directory, maxDepth) == Failure(e)
    {
      HopsFollowTheLine(claimant, directory, line, |line|);
      LineIsWalked(claimant, directory, line);
      SeenOnTheLine(claimant, directory, line);
      ReachIs(claimant, directory, maxDepth, |line|);
    }
  }

  lemma SeenOnTheLine(claimant: EmployeeRef, directory: Directory, line: seq<EmployeeRef>)
    requires IsReportingLine(claimant, directory, line) && Hop(claimant, directory, |line|).Some?
    ensures RepeatsAt(claimant, directory, |line|)
       <==> IsIn(claimant, line, Hop(claimant, directory, |line|).value)
  {
    HopsFollowTheLine(claimant, directory, line, |line|);
  }

  // The matrix

  datatype Band = Band(min: int, max: Option<int>, roles: seq<Role>)

  datatype RoutingParams = RoutingParams(matrix: seq<Band>, financeAlways: bool, internationalRequiresMd: bool)

  predicate Covers(band: Band, value: int) {
    band.min <= value && (band.max.None? || value <= band.max.value)
  }

  /** The roles of the first band that covers the value. */
  function RolesForValue(value: int, matrix: seq<Band>): (r: Result<seq<Role>, RoutingError>)
    ensures r.Failure? <==> forall i :: 0 <= i < |matrix| ==> !Covers(matrix[i], value)
  {
    if matrix == [] then Failure(NoBand(value))
    else if Covers(matrix[0], value) then Success(matrix[0].roles)
    else RolesForValue(value, matrix[1..])
  }

  /** The roles are those of the first band whose two ends hold the value between them. */
  lemma {:induction false} FirstBandDecides(value: int, matrix: seq<Band>, i: nat)
    requires i < |matrix| && matrix[i].min <= value && (matrix[i].max.Some? ==> value <= matrix[i].max.value)
    requires forall j :: 0 <= j < i ==>
               value < matrix[j].min || (matrix[j].max.Some? && matrix[j].max.value < value)
    ensures RolesForValue(value, matrix) == Success(matrix[i].roles)
  {
    if i > 0 {
      FirstBandDecides(value, matrix[1..], i - 1);
    }
  }

  const FULL_CHAIN := [ReportingManager, HeadOfDepartment, HeadOfDivision, MD]

  /** The roles of `more` appended one by one, skipping those already there. */
  function WithMissing(required: seq<Role>, more: seq<Role>): seq<Role> {
    if more == [] then required
    else
      var n := |more| - 1;
      var front := WithMissing(required, more[..n]);
      if more[n] in front then front else front + [more[n]]
  }

  /** `all` is `required` followed by the roles of `more` that it lacks, each once, in the order of `more`. */
  ghost predicate CompletesWith(required: seq<Role>, more: seq<Role>, all: seq<Role>) {
    && required <= all
    && (forall role :: role in more ==> role in all)
    && (forall k :: |required| <= k < |all| ==> all[k] in more && all[k] !in all[..k])
    && (forall a, b :: |required| <= a < b < |all| ==> InOrder(more, all[a], all[b]))
  }

  ghost predicate InOrder(roles: seq<Role>, first: Role, second: Role) {
    exists i, j :: 0 <= i < j < |roles| && roles[i] == first && roles[j] == second
  }

  lemma {:induction false} WithMissingCompletes(required: seq<Role>, more: seq<Role>)
    ensures CompletesWith(required, more, WithMissing(required, more))
  {
    if more != [] {
      var n := |more| - 1;
      WithMissingCompletes(required, more[..n]);
      OneMoreCompletes(required, more[..n], WithMissing(required, more[..n]), more[n]);
      assert more == more[..n] + [more[n]];
    }
  }

  lemma OneMoreCompletes(required: seq<Role>, more: seq<Role>, all: seq<Role>, role: Role)
    requires CompletesWith(required, more, all)
    ensures CompletesWith(required, more + [role], if role in all then all else all + [role])
  {
    var more', all' := more + [role], if role in all then all else all + [role];
    forall a, b | |required| <= a < b < |all'|
      ensures InOrder(more', all'[a], all'[b])
    {
      if b < |all| {
        assert InOrder(more, all[a], all[b]);
        var i, j :| 0 <= i < j < |more| && more[i] == all[a] && more[j] == all[b];
        assert more'[i] == all'[a] && more'[j] == all'[b];
      } else {
        var i :| 0 <= i < |more| && more[i] == all[a];
        assert more'[i] == all'[a] && more'[|more|] == all'[b];
      }
    }
    forall k | |required| <= k < |all'|
      ensures all'[k] in more' && all'[k] !in all'[..k]
    {
      if k < |all| {
        assert all'[..k] == all[..k];
      } else {
        assert all'[..k] == all && more'[|more|] == role;
      }
    }
  }

  function RequiredRoles(value: int, params: RoutingParams, international: bool): Result<seq<Role>, RoutingError> {
    var banded := RolesForValue(value, params.matrix);
    if banded.Success? && international && params.internationalRequiresMd
    then Success(WithMissing(banded.value, FULL_CHAIN))
    else banded
  }

  // The chain

  datatype ChainStep = ChainStep(sequence: nat, role: Role, approver: Option<EmployeeRef>)

  /** The nearest person up the line who holds a role. */
  function Holder(line: seq<EmployeeRef>, role: Role): (r: Option<EmployeeRef>)
    ensures r.None? <==> forall i :: 0 <= i < |line| ==> line[i].role != role
    ensures r.Some? ==> r.value.role == role && r.value in line
  {
    if line == [] then None
    else if line[0].role == role then Some(line[0])
    else Holder(line[1..], role)
  }

  /** Whoever holds it comes before everybody else up the line who does. */
  lemma {:induction false} HolderIsNearest(line: seq<EmployeeRef>, role: Role, i: nat)
    requires i < |line| && line[i].role == role && forall j :: 0 <= j < i ==> line[j].role != role
    ensures Holder(line, role) == Some(line[i])
  {
    if i > 0 {
      HolderIsNearest(line[1..], role, i - 1);
    }
  }

  function BusinessSteps(required: seq<Role>, line: seq<EmployeeRef>): (steps: seq<ChainStep>)
    ensures |steps| == |required|
    ensures forall k :: 0 <= k < |steps| ==> steps[k] == ChainStep(k + 1, required[k], Holder(line, required[k]))
  {
    seq(|required|, k requires 0 <= k < |required| => ChainStep(k + 1, required[k], Holder(line, required[k])))
  }

  function FinanceCodes(directory: map<string, EmployeeRef>): set<string> {
    set code | code in directory && directory[code].role.Finance?
  }

  predicate IsLeast(codes: set<string>, code: string) {
    code in codes && forall other :: other in codes ==> other == code || Precedes(code, other)
  }

  ghost function Least(codes: set<string>): (code: string)
    requires codes != {}
    ensures IsLeast(codes, code)
  {
    var some :| some in codes;
    if codes == {some} then some
    else
      var least := Least(codes - {some});
      PrecedesIsTotal(some, least);
      assert forall other :: other in codes ==> other == some || other in codes - {some};
      if Precedes(some, least) then
        PrecedesAll(codes - {some}, some, least);
        some
      else least
  }

  lemma PrecedesAll(codes: set<string>, code: string, least: string)
    requires IsLeast(codes, least) && Precedes(code, least)
    ensures forall other :: other in codes ==> Precedes(code, other)
  {
    forall other | other in codes
      ensures Precedes(code, other)
    {
      if other != least {
        PrecedesIsTransitive(code, least, other);
      }
    }
  }

  lemma LeastIsUnique(codes: set<string>, a: string, b: string)
    requires IsLeast(codes, a) && IsLeast(codes, b)
    ensures a == b
  {
    PrecedesIsTotal(a, b);
  }

  /** The Finance person with the lowest employee code, in the whole directory. */
  ghost function FirstFinance(directory: Directory): Option<EmployeeRef> {
    var codes := FinanceCodes(directory);
    if codes == {} then None else Some(directory[Least(codes)])
  }

  /** Found exactly when nobody in Finance has a code that comes before theirs, character by character. */
  lemma FirstFinanceExactly(directory: Directory, person: EmployeeRef)
    ensures FirstFinance(directory) == Some(person)
       <==> && person.code in directory && directory[person.code] == person && person.role.Finance?
            && forall code :: code in directory && directory[code].role.Finance? && code != person.code ==>
                 exists k :: && 0 <= k <= |person.code| && k < |code| && person.code[..k] == code[..k]
                             && (k == |person.code| || person.code[k] < code[k])
  {
    var codes := FinanceCodes(directory);
    forall code
      ensures Precedes(person.code, code)
         <==> exists k :: && 0 <= k <= |person.code| && k < |code| && person.code[..k] == code[..k]
                          && (k == |person.code| || person.code[k] < code[k])
    {
      PrecedesExactly(person.code, code);
    }
    if IsLeast(codes, person.code) {
      LeastIsUnique(codes, person.code, Least(codes));
    }
  }

  method FindFirstFinance(directory: Directory) returns (r: Option<EmployeeRef>)
    ensures r == FirstFinance(directory)
  {
    var codes := FinanceCodes(directory);
    if codes == {} {
      return None;
    }
    var best :| best in codes;
    var rest := codes - {best};
    while rest != {}
      invariant rest <= codes && IsLeast(codes - rest, best)
      decreases rest
    {
      var code :| code in rest;
      PrecedesIsTotal(code, best);
      assert codes - (rest - {code}) == (codes - rest) + {code};
      if Precedes(code, best) {
        PrecedesAll(codes - rest, code, best);
        best := code;
      }
      rest := rest - {code};
    }
    assert codes - rest == codes;
    LeastIsUnique(codes, best, Least(codes));
    return Some(directory[best]);
  }

  ghost function ChainOf(value: int, claimant: EmployeeRef, directory: Directory, params: RoutingParams,
                         international: bool := false): Result<seq<ChainStep>, RoutingError>
  {
    var required := RequiredRoles(value, params, international);
    if required.Failure? then Failure(required.error)
    else
      var line := AncestorsOf(claimant, directory, 12);
      if line.Failure? then Failure(line.error)
      else
        var business := BusinessSteps(required.value, line.value);
        Success(if params.financeAlways
                then business + [ChainStep(|business| + 1, Role.Finance, FirstFinance(directory))]
                else business)
  }

  method Require(value: int, params: RoutingParams, international: bool) returns (r: Result<seq<Role>, RoutingError>)
    ensures r == RequiredRoles(value, params, international)
    ensures r.Success? <==> RolesForValue(value, params.matrix).Success?
    ensures r.Success? && international && params.internationalRequiresMd ==>
              CompletesWith(RolesForValue(value, params.matrix).value,
                            [ReportingManager, HeadOfDepartment, HeadOfDivision, MD], r.value)
    ensures !international || !params.internationalRequiresMd ==> r == RolesForValue(value, params.matrix)
  {
    var banded := RolesForValue(value, params.matrix);
    if banded.Failure? || !international || !params.internationalRequiresMd {
      return banded;
    }
    var required := banded.value;
    for k := 0 to |FULL_CHAIN|
      invariant required == WithMissing(banded.value, FULL_CHAIN[..k])
    {
      assert FULL_CHAIN[..k + 1][..k] == FULL_CHAIN[..k];
      if FULL_CHAIN[k] !in required {
        required := required + [FULL_CHAIN[k]];
      }
    }
    assert FULL_CHAIN[..|FULL_CHAIN|] == FULL_CHAIN;
    WithMissingCompletes(banded.value, FULL_CHAIN);
    return Success(required);
  }

  method ResolveChain(value: int, claimant: EmployeeRef, directory: Directory, params: RoutingParams,
                      international: bool := false)
    returns (r: Result<seq<ChainStep>, RoutingError>)
    ensures r == ChainOf(value, claimant, directory, params, international)
  {
    var required := Require(value, params, international);
    if required.Failure? {
      return Failure(required.error);
    }
    var line := Ancestors(claimant, directory);
    if line.Failure? {
      return Failure(line.error);
    }
    var steps: seq<ChainStep> := [];
    for k := 0 to |required.value|
      invariant steps == BusinessSteps(required.value, line.value)[..k]
    {
      steps := steps + [ChainStep(|steps| + 1, required.value[k], Holder(line.value, required.value[k]))];
    }
    assert steps == BusinessSteps(required.value, line.value);

    if params.financeAlways {
      var finance := FindFirstFinance(directory);
      steps := steps + [ChainStep(|steps| + 1, Role.Finance, finance)];
    }
    return Success(steps);
  }

  // What a resolved chain promises

  /** Somebody in the line has the role, and nobody before them. */
  ghost predicate IsNearest(line: seq<EmployeeRef>, role: Role, person: EmployeeRef) {
    exists i :: && 0 <= i < |line| && line[i] == person && person.role == role
                && forall j :: 0 <= j < i ==> line[j].role != role
  }

  lemma HolderIsFound(line: seq<EmployeeRef>, role: Role) returns (i: nat)
    requires Holder(line, role).Some?
    ensures i < |line| && line[i] == Holder(line, role).value && line[i].role == role
    ensures forall j :: 0 <= j < i ==> line[j].role != role
  {
    i := 0;
    while line[i].role != role
      invariant i < |line| && forall j :: 0 <= j < i ==> line[j].role != role
      decreases |line| - i
    {
      if i + 1 == |line| {
        assert false;
      }
      i := i + 1;
    }
    HolderIsNearest(line, role, i);
  }

  /**
   * Sequences count from one; every business step names the claimant's nearest ancestor with its
   * role, or nobody when none has it; and nobody it names is the claimant.
   */
  lemma ChainIsWellFormed(value: int, claimant: EmployeeRef, directory: Directory, params: RoutingParams,
                          international: bool)
    requires ChainOf(value, claimant, directory, params, international).Success?
    ensures var chain := ChainOf(value, claimant, directory, params, international).value;
      var required := RequiredRoles(value, params, international).value;
      var line := AncestorsOf(claimant, directory, 12).value;
      && |chain| == |required| + (if params.financeAlways then 1 else 0)
      && (forall k :: 0 <= k < |chain| ==> chain[k].sequence == k + 1)
      && (forall k :: 0 <= k < |required| ==>
            && chain[k].role == required[k]
            && (chain[k].approver.None? <==> forall i :: 0 <= i < |line| ==> line[i].role != required[k])
            && (chain[k].approver.Some? ==>
                  && IsNearest(line, required[k], chain[k].approver.value)
                  && chain[k].approver.value.code != claimant.code
                  && chain[k].approver.value.code in directory))
      && (params.financeAlways ==>
            chain[|required|] == ChainStep(|required| + 1, Role.Finance, FirstFinance(directory)))
  {
    AncestorsAreOthers(claimant, directory, 12);
    var required := RequiredRoles(value, params, international).value;
    var line := AncestorsOf(claimant, directory, 12).value;
    forall k | 0 <= k < |required| && Holder(line, required[k]).Some?
      ensures IsNearest(line, required[k], Holder(line, required[k]).value)
      ensures Holder(line, required[k]).value.code != claimant.code
      ensures Holder(line, required[k]).value.code in directory
    {
      var i := HolderIsFound(line, required[k]);
    }
  }

  /** Two levels with different roles are never decided by the same person. */
  lemma DistinctRolesHaveDistinctApprovers(value: int, claimant: EmployeeRef, directory: Directory,
                                           params: RoutingParams, international: bool, i: nat, j: nat)
    requires ChainOf(value, claimant, directory, params, international).Success?
    requires i < |RequiredRoles(value, params, international).value|
    requires j < |RequiredRoles(value, params, international).value|
    ensures var chain := ChainOf(value, claimant, directory, params, international).value;
      chain[i].role != chain[j].role && chain[i].approver.Some? && chain[j].approver.Some?
      ==> chain[i].approver.value.code != chain[j].approver.value.code
  {
    ChainIsWellFormed(value, claimant, directory, params, international);
    var line := AncestorsOf(claimant, directory, 12).value;
    AncestorsAreOthers(claimant, directory, 12);
    var chain := ChainOf(value, claimant, directory, params, international).value;
    if chain[i].approver.Some? && chain[j].approver.Some? {
      var a :| 0 <= a < |line| && line[a] == chain[i].approver.value;
      var b :| 0 <= b < |line| && line[b] == chain[j].approver.value;
    }
  }

  /** Finance verification can fall to the claimant: exactly when theirs is the lowest Finance code. */
  lemma FinanceIsTheClaimantExactly(claimant: EmployeeRef, directory: Directory)
    requires claimant.code in directory
    ensures FirstFinance(directory).Some? && FirstFinance(directory).value.code == claimant.code
       <==> IsLeast(FinanceCodes(directory), claimant.code)
  {
    var codes := FinanceCodes(directory);
    if IsLeast(codes, claimant.code) {
      LeastIsUnique(codes, claimant.code, Least(codes));
    }
  }

  /** A resolved chain asks the claimant exactly when it ends with Finance and theirs is the least Finance code. */
  lemma ChainNamesTheClaimantExactly(value: int, claimant: EmployeeRef, directory: Directory, params: RoutingParams,
                                     international: bool)
    requires claimant.code in directory && ChainOf(value, claimant, directory, params, international).Success?
    ensures var chain := ChainOf(value, claimant, directory, params, international).value;
      (exists k :: 0 <= k < |chain| && Names(chain[k], claimant.code))
      <==> params.financeAlways && IsLeast(FinanceCodes(directory), claimant.code)
  {
    var chain := ChainOf(value, claimant, directory, params, international).value;
    var n := |RequiredRoles(value, params, international).value|;
    ChainIsWellFormed(value, claimant, directory, params, international);
    FinanceIsTheClaimantExactly(claimant, directory);
    assert forall k :: 0 <= k < n ==> !Names(chain[k], claimant.code);
    if params.financeAlways {
      assert Names(chain[n], claimant.code) <==> IsLeast(FinanceCodes(directory), claimant.code);
    }
  }

  predicate Names(step: ChainStep, code: string) {
    step.approver.Some? && step.approver.value.code == code
  }

  // Monotone routing

  /** Bands that meet at every paisa from zero up, with no gap and no end. */
  predicate Contiguous(matrix: seq<Band>) {
    && matrix != []
    && matrix[0].min <= 0
    && matrix[|matrix| - 1].max.None?
    && (forall i :: 0 <= i < |matrix| - 1 ==>
          && matrix[i].max.Some?
          && matrix[i].min <= matrix[i].max.value
          && matrix[i].max.value + 1 == matrix[i + 1].min)
  }

  /** Each band requires at least the roles of the band below it. */
  predicate Nested(matrix: seq<Band>) {
    forall i :: 0 <= i < |matrix| - 1 ==> multiset(matrix[i].roles) <= multiset(matrix[i + 1].roles)
  }

  lemma {:induction false} TailIsContiguous(matrix: seq<Band>)
    requires |matrix| > 1
    requires forall i :: 0 <= i < |matrix| - 1 ==>
               && matrix[i].max.Some? && matrix[i].min <= matrix[i].max.value
               && matrix[i].max.value + 1 == matrix[i + 1].min
    ensures forall i :: 0 <= i < |matrix[1..]| - 1 ==>
               matrix[1..][i].max.Some? && matrix[1..][i].min <= matrix[1..][i].max.value
               && matrix[1..][i].max.value + 1 == matrix[1..][i + 1].min
  {
  }

  /** A larger value falls in the same band or a later one, so it requires at least the same roles. */
  lemma {:induction false} RolesGrowWithValue(matrix: seq<Band>, lower: int, value: int)
    requires matrix != [] && matrix[0].min <= lower <= value
    requires matrix[|matrix| - 1].max.None?
    requires forall i :: 0 <= i < |matrix| - 1 ==>
               && matrix[i].max.Some? && matrix[i].min <= matrix[i].max.value
               && matrix[i].max.value + 1 == matrix[i + 1].min
    requires Nested(matrix)
    ensures RolesForValue(lower, matrix).Success? && RolesForValue(value, matrix).Success?
    ensures multiset(matrix[0].roles) <= multiset(RolesForValue(lower, matrix).value)
    ensures multiset(RolesForValue(lower, matrix).value) <= multiset(RolesForValue(value, matrix).value)
  {
    if |matrix| > 1 {
      TailIsContiguous(matrix);
      var rest := matrix[1..];
      forall i | 0 <= i < |rest| - 1
        ensures multiset(rest[i].roles) <= multiset(rest[i + 1].roles)
      {
        assert multiset(matrix[i + 1].roles) <= multiset(matrix[i + 2].roles);
      }
      if !Covers(matrix[0], lower) {
        RolesGrowWithValue(rest, lower, value);
      } else if !Covers(matrix[0], value) {
        RolesGrowWithValue(rest, value, value);
      }
    }
  }

  /** Everybody a chain asks, with the role they are asked in. */
  function Asked(chain: seq<ChainStep>): set<(Role, Option<EmployeeRef>)> {
    set k | 0 <= k < |chain| :: (chain[k].role, chain[k].approver)
  }

  /**
   * Under a contiguous, nested matrix a smaller value never adds a level: the chain is no longer, and
   * everybody it asks was asked, in the same role, for the larger value.
   */
  lemma SmallerValueAsksNobodyNew(lower: int, value: int, claimant: EmployeeRef, directory: Directory,
                                  params: RoutingParams)
    requires 0 <= lower <= value && Contiguous(params.matrix) && Nested(params.matrix)
    requires ChainOf(value, claimant, directory, params).Success?
    ensures ChainOf(lower, claimant, directory, params).Success?
    ensures |ChainOf(lower, claimant, directory, params).value| <= |ChainOf(value, claimant, directory, params).value|
    ensures Asked(ChainOf(lower, claimant, directory, params).value)
         <= Asked(ChainOf(value, claimant, directory, params).value)
  {
    RolesGrowWithValue(params.matrix, lower, value);
    var few, many := RolesForValue(lower, params.matrix).value, RolesForValue(value, params.matrix).value;
    SubMultisetIsShorter(few, many);
    var line := AncestorsOf(claimant, directory, 12).value;
    var a, b := ChainOf(lower, claimant, directory, params).value, ChainOf(value, claimant, directory, params).value;
    forall k | 0 <= k < |a|
      ensures (a[k].role, a[k].approver) in Asked(b)
    {
      if k < |few| {
        assert few[k] in multiset(many);
        var m :| 0 <= m < |many| && many[m] == few[k];
        assert (b[m].role, b[m].approver) == (a[k].role, a[k].approver);
      } else {
        assert (b[|many|].role, b[|many|].approver) == (a[k].role, a[k].approver);
      }
    }
  }

  lemma SubMultisetIsShorter(few: seq<Role>, many: seq<Role>)
    requires multiset(few) <= multiset(many)
    ensures |few| <= |many|
    ensures forall role :: role in few ==> role in multiset(many)
  {
    assert multiset(many) == multiset(few) + (multiset(many) - multiset(few));
    assert |multiset(few)| == |few| && |multiset(many)| == |many|;
    forall role | role in few
      ensures role in multiset(many)
    {
      assert role in multiset(few);
    }
  }

  // The matrix the policy ships with, whose bands are written in whole rupees

  const SHIPPED_MATRIX := [
    Band(0, Some(2500000), [ReportingManager]),
    Band(2500100, Some(7500000), [ReportingManager, HeadOfDepartment]),
    Band(7500100, Some(20000000), [ReportingManager, HeadOfDepartment, HeadOfDivision]),
    Band(20000100, None, [ReportingManager, HeadOfDepartment, HeadOfDivision, MD])]

  /** It covers every value but those strictly between one band's last rupee and the next one's first. */
  lemma ShippedMatrixGaps(value: int)
    requires value >= 0
    ensures RolesForValue(value, SHIPPED_MATRIX).Failure?
       <==> 2500000 < value < 2500100 || 7500000 < value < 7500100 || 20000000 < value < 20000100
  {
    var m := SHIPPED_MATRIX;
    assert Covers(m[0], value) <==> value <= 2500000;
    assert Covers(m[1], value) <==> 2500100 <= value <= 7500000;
    assert Covers(m[2], value) <==> 7500100 <= value <= 20000000;
    assert Covers(m[3], value) <==> 20000100 <= value;
  }

  /** Each shipped band asks one level more, from the reporting manager up to the managing director. */
  lemma ShippedMatrixAsks(value: int)
    requires RolesForValue(value, SHIPPED_MATRIX).Success?
    ensures var roles := RolesForValue(value, SHIPPED_MATRIX).value;
      && roles <= [ReportingManager, HeadOfDepartment, HeadOfDivision, MD]
      && |roles| == (if value <= 2500000 then 1 else if value <= 7500000 then 2 else if value <= 20000000 then 3 else 4)
  {
    var m := SHIPPED_MATRIX;
    assert !Covers(m[0], value) && !Covers(m[1], value) && !Covers(m[2], value) ==> Covers(m[3], value);
    if Covers(m[0], value) {
      FirstBandDecides(value, m, 0);
    } else if Covers(m[1], value) {
      FirstBandDecides(value, m, 1);
    } else if Covers(m[2], value) {
      FirstBandDecides(value, m, 2);
    } else {
      FirstBandDecides(value, m, 3);
    }
  }
}
