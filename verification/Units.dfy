/** Exchange units (exchange/model.go). */
module Units {
  import opened Taxonomy
  import opened References

  datatype AuthorKind = User | Agent | Worker

  datatype Author = Author(kind: AuthorKind, name: string)

  // One recorded transition.
  datatype Entry = Entry(date: string, domain: Domain, from: Value, to: Value, author: Author)

  datatype Relationship = Relationship(typ: string, target: string)

  datatype StateVector = StateVector(
    content: Value, execution: Value, planning: Value, container: Value, existence: Value, note: Value)

  // envelope stands for the remaining serialized fields (author, created, classification, provenance);
  // content is the payload.
  datatype Unit = Unit(
    identity: Identity, revision: int, updated: string, states: StateVector, changeLog: seq<Entry>,
    relationships: seq<Relationship>, phase: Value, envelope: string, content: string)

  function StateOf(u: Unit, d: Domain): Value {
    match d
    case ContentState => u.states.content
    case ExecutionState => u.states.execution
    case PlanningState => u.states.planning
    case ContainerState => u.states.container
    case ExistenceState => u.states.existence
    case NoteState => u.states.note
    case Phase => u.phase
    case UnknownDomain(_) => Absent
  }

  function SetState(s: StateVector, d: Domain, v: Value): StateVector {
    match d
    case ContentState => s.(content := v)
    case ExecutionState => s.(execution := v)
    case PlanningState => s.(planning := v)
    case ContainerState => s.(container := v)
    case ExistenceState => s.(existence := v)
    case NoteState => s.(note := v)
    case _ => s
  }
}
