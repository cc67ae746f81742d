/** The type and state taxonomy (conformance/state.go). */
module Taxonomy {

  datatype Option<+T> = None | Some(value: T)

  // The 29 artifact types.
  datatype TypeToken =
    | Vis | Str | Req | Scp | Epc | Plan | Ctr | Tkt | Sto | Ts | Bug | Td | Ch | Spk | Ses | Rvw | Cmt | Mbr
    | Adr | Dec | Arc | Spec | Std | Run | Rel | Shr | Gls | Trc | Fnd

  function Spelling(t: TypeToken): string {
    match t
    case Vis => "vis" case Str => "str" case Req => "req" case Scp => "scp" case Epc => "epc"
    case Plan => "plan" case Ctr => "ctr" case Tkt => "tkt" case Sto => "sto" case Ts => "ts"
    case Bug => "bug" case Td => "td" case Ch => "ch" case Spk => "spk" case Ses => "ses"
    case Rvw => "rvw" case Cmt => "cmt" case Mbr => "mbr" case Adr => "adr" case Dec => "dec"
    case Arc => "arc" case Spec => "spec" case Std => "std" case Run => "run" case Rel => "rel"
    case Shr => "shr" case Gls => "gls" case Trc => "trc" case Fnd => "fnd"
  }

  const TOKENS: seq<TypeToken> :=
    [Vis, Str, Req, Scp, Epc, Plan, Ctr, Tkt, Sto, Ts, Bug, Td, Ch, Spk, Ses, Rvw, Cmt, Mbr,
     Adr, Dec, Arc, Spec, Std, Run, Rel, Shr, Gls, Trc, Fnd]

  // The lookup in the token table.
  function ParseToken(s: string): Option<TypeToken> {
    FindToken(s, TOKENS)
  }

  function FindToken(s: string, tokens: seq<TypeToken>): Option<TypeToken> {
    if tokens == [] then None
    else if s == Spelling(tokens[0]) then Some(tokens[0])
    else FindToken(s, tokens[1..])
  }

  lemma SpellingInjective(t: TypeToken, u: TypeToken)
    requires Spelling(t) == Spelling(u)
    ensures t == u
  {
  }

  // No spelling begins another.
  lemma SpellingsPrefixFree(t: TypeToken, u: TypeToken)
    requires Spelling(t) <= Spelling(u)
    ensures t == u
  {
    var s, r := Spelling(t), Spelling(u);
    assert s[0] == r[0] && s[1] == r[1] && (|s| > 2 ==> s[2] == r[2]);
  }

  lemma AllTokensListed(t: TypeToken)
    ensures t in TOKENS
  {
    var i := match t
      case Vis => 0 case Str => 1 case Req => 2 case Scp => 3 case Epc => 4 case Plan => 5 case Ctr => 6
      case Tkt => 7 case Sto => 8 case Ts => 9 case Bug => 10 case Td => 11 case Ch => 12 case Spk => 13
      case Ses => 14 case Rvw => 15 case Cmt => 16 case Mbr => 17 case Adr => 18 case Dec => 19 case Arc => 20
      case Spec => 21 case Std => 22 case Run => 23 case Rel => 24 case Shr => 25 case Gls => 26 case Trc => 27
      case Fnd => 28;
    assert TOKENS[i] == t;
  }

  lemma {:induction false} FindTokenSound(s: string, tokens: seq<TypeToken>)
    ensures FindToken(s, tokens).Some? ==> s == Spelling(FindToken(s, tokens).value)
  {
    if tokens != [] && s != Spelling(tokens[0]) {
      FindTokenSound(s, tokens[1..]);
    }
  }

  lemma {:induction false} FindTokenFinds(tokens: seq<TypeToken>, t: TypeToken)
    requires t in tokens
    ensures FindToken(Spelling(t), tokens) == Some(t)
  {
    if Spelling(t) == Spelling(tokens[0]) {
      SpellingInjective(t, tokens[0]);
    } else {
      FindTokenFinds(tokens[1..], t);
    }
  }

  // The table maps every spelling to its token and nothing else.
  lemma TokenTable(s: string, t: TypeToken)
    ensures ParseToken(s) == Some(t) <==> s == Spelling(t)
  {
    AllTokensListed(t);
    FindTokenFinds(TOKENS, t);
    FindTokenSound(s, TOKENS);
  }

  lemma SpellingIsPlain(t: TypeToken)
    ensures 2 <= |Spelling(t)| <= 4
    ensures forall i :: 0 <= i < |Spelling(t)| ==> 'a' <= Spelling(t)[i] <= 'z'
  {
  }

  predicate IsWorkItem(t: TypeToken) {
    t == Sto || t == Ts || t == Bug || t == Td || t == Ch || t == Spk
  }

  // Types whose references carry an instance version in the repository grammar.
  predicate IsVersionedType(t: TypeToken) {
    t == Scp || t == Plan
  }

  // The issue-number group of a type.
  datatype NumberGroup = Unnumbered | Ticket | Note | WorkItem

  function GroupOf(t: TypeToken): NumberGroup {
    if t == Tkt then Ticket
    else if t == Cmt then Note
    else if IsWorkItem(t) then WorkItem
    else Unnumbered
  }

  lemma GroupMeans(t: TypeToken)
    ensures GroupOf(t) == Ticket <==> t == Tkt
    ensures GroupOf(t) == Note <==> t == Cmt
    ensures GroupOf(t) == WorkItem <==> t in {Sto, Ts, Bug, Td, Ch, Spk}
  {
  }

  datatype Domain =
    | ContentState | ExecutionState | PlanningState | ContainerState | ExistenceState | NoteState
    | Phase
    | UnknownDomain(name: string)

  // State values; Absent is the empty string, Dash the initial-state marker, Other any string in no table.
  datatype Value =
    | Absent | Dash
    | Draft | Review | Approved | Amended | Proposed | Accepted | Superseded
    | Immutable
    | Planned | Active | Completed
    | Todo | InProgress | InReview | Done | Canceled
    | Archived | Retired
    | Open | Resolved | Dismissed
    | Discovery | Mvp | Milestone | Release | Growth | Maturity | Sunset
    | Other(text: string)

  // The state domains a type owns.
  function Owned(t: TypeToken): seq<Domain> {
    if t == Plan then [ContentState, PlanningState, ExistenceState]
    else if t == Ctr then [ContainerState, ExistenceState]
    else if t == Tkt then []
    else if IsWorkItem(t) then [ExecutionState, ExistenceState]
    else if t == Ses then [ExistenceState]
    else if t == Cmt then [ContentState, ExistenceState, NoteState]
    else [ContentState, ExistenceState]
  }

  predicate OwnsContentState(t: TypeToken) {
    ContentState in Owned(t)
  }

  function ContentVariant(t: TypeToken): seq<Value> {
    if t == Adr then [Proposed, Accepted, Superseded]
    else if t == Dec then [Draft, Accepted, Superseded]
    else [Draft, Review, Approved, Amended]
  }

  // The ordered value set of a domain on a type.
  function DomainValues(d: Domain, t: TypeToken): seq<Value> {
    match d
    case ContentState => ContentVariant(t)
    case ExecutionState => [Planned, Todo, InProgress, InReview, Done, Canceled]
    case PlanningState => [Draft, Approved, Immutable, Superseded]
    case ContainerState => [Planned, Active, Completed]
    case ExistenceState => [Active, Archived, Retired]
    case NoteState => [Open, Resolved, Dismissed]
    case Phase => [Discovery, Mvp, Milestone, Release, Growth, Maturity, Sunset]
    case UnknownDomain(_) => []
  }

  // The position of v, or -1.
  function IndexOf(values: seq<Value>, v: Value): (i: int)
    ensures i == -1 <==> v !in values
    ensures i >= 0 ==> i < |values| && values[i] == v
    ensures i >= -1
  {
    if values == [] then -1
    else if values[0] == v then 0
    else
      var i := IndexOf(values[1..], v);
      assert values == [values[0]] + values[1..];
      if i < 0 then -1 else i + 1
  }

  // The execution-state table.
  predicate IsLegalExecution(from: Value, to: Value) {
    match from
    case Planned => to == Todo || to == Canceled
    case Todo => to == InProgress || to == Canceled
    case InProgress => to == InReview || to == Todo || to == Canceled
    case InReview => to == Done || to == InProgress || to == Canceled
    case Done => to == Canceled
    case Canceled => to == Todo
    case _ => false
  }

  predicate IsLegalTransition(d: Domain, t: TypeToken, from: Value, to: Value) {
    if from == Dash || d == Phase then true
    else
      var values := DomainValues(d, t);
      if IndexOf(values, from) < 0 || IndexOf(values, to) < 0 then false
      else if d == ExecutionState then IsLegalExecution(from, to)
      else if d == NoteState then from == Open && (to == Resolved || to == Dismissed)
      else IndexOf(values, to) > IndexOf(values, from)
  }

  // ---- the tables, read by domain ----

  // The types that own a domain.
  predicate OwnsDomain(t: TypeToken, d: Domain) {
    match d
    case ExecutionState => t in {Sto, Ts, Bug, Td, Ch, Spk}
    case PlanningState => t == Plan
    case ContainerState => t == Ctr
    case NoteState => t == Cmt
    case ExistenceState => t != Tkt
    case ContentState => t !in {Ctr, Tkt, Ses, Sto, Ts, Bug, Td, Ch, Spk}
    case Phase => false
    case UnknownDomain(_) => false
  }

  lemma OwnedIff(t: TypeToken, d: Domain)
    ensures d in Owned(t) <==> OwnsDomain(t, d)
  {
  }

  // to comes after from in the list of three.
  predicate LaterOfThree(a: Value, b: Value, c: Value, from: Value, to: Value) {
    (from == a && (to == b || to == c)) || (from == b && to == c)
  }

  predicate LaterOfFour(a: Value, b: Value, c: Value, d: Value, from: Value, to: Value) {
    (from == a && (to == b || to == c || to == d)) || (from == b && (to == c || to == d)) || (from == c && to == d)
  }

  // The moves a domain allows, from any value but the initial-state marker.
  predicate InTable(d: Domain, t: TypeToken, from: Value, to: Value) {
    match d
    case ExecutionState =>
      || (from == Planned && to == Todo) || (from == Todo && to == InProgress)
      || (from == InProgress && to == InReview) || (from == InReview && to == Done)
      || (from == InReview && to == InProgress) || (from == InProgress && to == Todo)
      || (from == Canceled && to == Todo)
      || (to == Canceled && from in {Planned, Todo, InProgress, InReview, Done})
    case PlanningState => LaterOfFour(Draft, Approved, Immutable, Superseded, from, to)
    case ContainerState => LaterOfThree(Planned, Active, Completed, from, to)
    case ExistenceState => LaterOfThree(Active, Archived, Retired, from, to)
    case NoteState => from == Open && (to == Resolved || to == Dismissed)
    case ContentState =>
      if t == Adr then LaterOfThree(Proposed, Accepted, Superseded, from, to)
      else if t == Dec then LaterOfThree(Draft, Accepted, Superseded, from, to)
      else LaterOfFour(Draft, Review, Approved, Amended, from, to)
    case _ => false
  }

  lemma ExecutionMoves(t: TypeToken, from: Value, to: Value)
    ensures IsLegalExecution(from, to) <==> InTable(ExecutionState, t, from, to)
  {
  }

  function PositionOf(v: Value, a: Value, b: Value, c: Value, d: Value): int {
    if v == a then 0 else if v == b then 1 else if v == c then 2 else if v == d then 3 else -1
  }

  lemma PositionStep(x: Value, rest: seq<Value>, v: Value)
    ensures IndexOf([x] + rest, v) == if v == x then 0 else if IndexOf(rest, v) < 0 then -1 else IndexOf(rest, v) + 1
  {
    assert ([x] + rest)[1..] == rest;
  }

  lemma ThreePositions(a: Value, b: Value, c: Value, v: Value)
    ensures IndexOf([a, b, c], v) == PositionOf(v, a, b, c, c)
  {
    PositionStep(a, [b, c], v);
    PositionStep(b, [c], v);
    PositionStep(c, [], v);
    assert [a] + [b, c] == [a, b, c] && [b] + [c] == [b, c] && [c] + [] == [c];
  }

  lemma FourPositions(a: Value, b: Value, c: Value, d: Value, v: Value)
    ensures IndexOf([a, b, c, d], v) == PositionOf(v, a, b, c, d)
  {
    PositionStep(a, [b, c, d], v);
    ThreePositions(b, c, d, v);
    assert [a] + [b, c, d] == [a, b, c, d];
  }

  // A later value, both in the list.
  predicate Rises(values: seq<Value>, from: Value, to: Value) {
    0 <= IndexOf(values, from) < IndexOf(values, to)
  }

  lemma ThreeRise(values: seq<Value>, a: Value, b: Value, c: Value, from: Value, to: Value)
    requires a != b && b != c && a != c && values == [a, b, c]
    ensures Rises(values, from, to) <==> LaterOfThree(a, b, c, from, to)
  {
    ThreePositions(a, b, c, from);
    ThreePositions(a, b, c, to);
  }

  lemma FourRise(values: seq<Value>, a: Value, b: Value, c: Value, d: Value, from: Value, to: Value)
    requires a != b && a != c && a != d && b != c && b != d && c != d && values == [a, b, c, d]
    ensures Rises(values, from, to) <==> LaterOfFour(a, b, c, d, from, to)
  {
    FourPositions(a, b, c, d, from);
    FourPositions(a, b, c, d, to);
  }

  lemma RisingIsLegal(d: Domain, t: TypeToken, from: Value, to: Value)
    requires from != Dash && d != Phase && d != ExecutionState && d != NoteState
    ensures IsLegalTransition(d, t, from, to) <==> Rises(DomainValues(d, t), from, to)
  {
  }

  lemma ExecutionTable(t: TypeToken, from: Value, to: Value)
    requires from != Dash
    ensures IsLegalTransition(ExecutionState, t, from, to) <==> InTable(ExecutionState, t, from, to)
  {
    ExecutionMoves(t, from, to);
    if IsLegalExecution(from, to) { ExecutionInTable(from, to); }
  }

  lemma ExecutionInTable(from: Value, to: Value)
    requires IsLegalExecution(from, to)
    ensures from in [Planned, Todo, InProgress, InReview, Done, Canceled]
    ensures to in [Planned, Todo, InProgress, InReview, Done, Canceled]
  {
  }

  lemma NoteValues(values: seq<Value>, from: Value, to: Value)
    requires values == [Open, Resolved, Dismissed]
    ensures from == Open && (to == Resolved || to == Dismissed) ==> IndexOf(values, from) >= 0 && IndexOf(values, to) >= 0
  {
    assert values[0] == Open && values[1] == Resolved && values[2] == Dismissed;
  }

  lemma NoteTable(t: TypeToken, from: Value, to: Value)
    requires from != Dash
    ensures IsLegalTransition(NoteState, t, from, to) <==> InTable(NoteState, t, from, to)
  {
    NoteValues(DomainValues(NoteState, t), from, to);
  }

  lemma VariantRises(t: TypeToken, values: seq<Value>, from: Value, to: Value)
    requires values == ContentVariant(t)
    ensures Rises(values, from, to) <==> InTable(ContentState, t, from, to)
  {
    if t == Adr {
      ThreeRise(values, Proposed, Accepted, Superseded, from, to);
    } else if t == Dec {
      ThreeRise(values, Draft, Accepted, Superseded, from, to);
    } else {
      FourRise(values, Draft, Review, Approved, Amended, from, to);
    }
  }

  lemma RiseIsTable(d: Domain, t: TypeToken, values: seq<Value>, from: Value, to: Value)
    requires values == DomainValues(d, t) && d in {ContentState, PlanningState, ContainerState, ExistenceState}
    ensures Rises(values, from, to) <==> InTable(d, t, from, to)
  {
    if d == ContentState {
      VariantRises(t, values, from, to);
    } else if d == PlanningState {
      FourRise(values, Draft, Approved, Immutable, Superseded, from, to);
    } else if d == ContainerState {
      ThreeRise(values, Planned, Active, Completed, from, to);
    } else {
      ThreeRise(values, Active, Archived, Retired, from, to);
    }
  }

  // What the transition test allows is the table.
  lemma LegalIff(d: Domain, t: TypeToken, from: Value, to: Value)
    requires from != Dash && d != Phase
    ensures IsLegalTransition(d, t, from, to) <==> InTable(d, t, from, to)
  {
    if d == ExecutionState {
      ExecutionTable(t, from, to);
    } else if d == NoteState {
      NoteTable(t, from, to);
    } else if !d.UnknownDomain? {
      RisingIsLegal(d, t, from, to);
      RiseIsTable(d, t, DomainValues(d, t), from, to);
    }
  }

  // The values of a domain.
  predicate HasValue(d: Domain, t: TypeToken, v: Value) {
    match d
    case ContentState =>
      if t == Adr then v in {Proposed, Accepted, Superseded}
      else if t == Dec then v in {Draft, Accepted, Superseded}
      else v in {Draft, Review, Approved, Amended}
    case ExecutionState => v in {Planned, Todo, InProgress, InReview, Done, Canceled}
    case PlanningState => v in {Draft, Approved, Immutable, Superseded}
    case ContainerState => v in {Planned, Active, Completed}
    case ExistenceState => v in {Active, Archived, Retired}
    case NoteState => v in {Open, Resolved, Dismissed}
    case Phase => v in {Discovery, Mvp, Milestone, Release, Growth, Maturity, Sunset}
    case UnknownDomain(_) => false
  }

  lemma ValuesIff(d: Domain, t: TypeToken, v: Value)
    ensures v in DomainValues(d, t) <==> HasValue(d, t, v)
  {
  }
}
