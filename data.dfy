/** Shapes of the records the application stores (src/lib/data.ts), and the
    Option/Result wrappers the rest of the model uses for absent values and
    failing calls. */
module Data {

  datatype Option<+T> = None | Some(value: T) {
    /** The wrapped value, or `default` when absent (JavaScript's `x ?? default`). */
    function GetOr(default: T): T {
      match this
      case Some(v) => v
      case None => default
    }
  }

  datatype Result<+T, +E> = Ok(value: T) | Err(error: E)

  /** A document value: the `any` of the stored records. JavaScript numbers
      are floating point; they are carried as reals and never computed on. */
  datatype Value =
    | Null
    | Flag(b: bool)
    | Number(n: real)
    | Text(s: string)
    | Timestamp(millis: int)
    | List(items: seq<Value>)
    | Record(fields: map<string, Value>)

  datatype FieldType = Checkbox | TextInput | NumberInput | DateInput | FileInput | Selector

  /** Phase statuses are the feminine forms, checkpoint statuses the masculine ones. */
  datatype PhaseStatus = PhaseNotStarted | PhaseInProgress | PhaseDone {
    function Label(): string {
      match this
      case PhaseNotStarted => "No iniciada"
      case PhaseInProgress => "En curso"
      case PhaseDone => "Completada"
    }
  }

  datatype CheckpointStatus = CheckpointNotStarted | CheckpointInProgress | CheckpointDone {
    function Label(): string {
      match this
      case CheckpointNotStarted => "No iniciado"
      case CheckpointInProgress => "En curso"
      case CheckpointDone => "Completado"
    }
  }

  /** `label` (a Dafny keyword) is carried as `caption`. */
  datatype Field = Field(
    id: string, caption: string, fieldType: FieldType, value: Value,
    options: Option<seq<string>>, required: bool)

  datatype Checkpoint = Checkpoint(
    id: string, title: string, status: CheckpointStatus, fields: seq<Field>)

  datatype Phase = Phase(
    id: string, title: string, objective: string, status: PhaseStatus,
    checkpoints: seq<Checkpoint>, closingCriteria: string)

  datatype Priority = Alta | Media | Baja

  datatype Assignee = Assignee(name: string, initials: string)

  datatype Task = Task(
    id: string, description: string, assignee: Assignee, priority: Priority, completed: bool)

  datatype Photo = Photo(id: string, url: string, hint: string, comment: string, capturedAt: int)

  datatype Visit = Visit(
    id: string, date: int, phase: string, attendees: seq<string>, observations: string)

  datatype FileKind = Pdf | Dwg | Doc | Xls

  datatype FileAttachment = FileAttachment(
    id: string, name: string, url: string, fileType: FileKind, uploadedAt: int, phase: string)

  datatype ProjectType = Comercial | Residencial | Industrial

  /** A stored project; dates are opaque instants (milliseconds). */
  datatype Project = Project(
    id: string, name: string, address: string, client: string, startDate: int,
    projectType: ProjectType, coverPhotoUrl: string, coverPhotoHint: string,
    tasks: seq<Task>, photos: seq<Photo>, visits: seq<Visit>,
    phases: seq<Phase>, files: seq<FileAttachment>)
}
