/** The entities of the parking store and the result types its operations share. */
module Model {
  type Id = string

  /** Nanoseconds since Go's zero time; the zero time itself means "not given". */
  type Time = int
  const ZERO_TIME: Time := 0

  const HOUR: Time := 3_600_000_000_000
  const MAX_AUTH_DURATION: Time := 7 * 24 * HOUR
  const EXPIRING_SOON_WINDOW: Time := 6 * HOUR

  newtype byte = x: int | 0 <= x < 256

  /** A Go string whose bytes matter: plates are scanned rune by rune and rebuilt byte by byte. */
  type PlateText = seq<byte>

  datatype Option<+T> = None | Some(value: T)
  datatype Result<+T> = Ok(value: T) | Err(error: Error)

  /** The store's sentinel errors, the service's field errors, and any error raised by the SQL driver. */
  datatype Error =
    | NotFound
    | Conflict
    | ConcurrentModify
    | StatusTransition
    | NoCapacity
    | AlreadyEntered
    | AlreadyExited
    | OutOfTimeWindow
    | ResidentDisabled
    | AreaArchived
    | InvalidField(field: string)
    | DriverError

  /** Statuses are strings in the program; the last case stands for every other string. */
  datatype AuthStatus = Pending | Active | Completed | Cancelled | Expired | OtherStatus(text: string)
  datatype RecordStatus = Entered | Exited | OtherRecordStatus(text: string)
  datatype ResidentStatus = EnabledResident | DisabledResident | OtherResidentStatus(text: string)

  datatype Resident = Resident(id: Id, building: string, status: ResidentStatus, archivedAt: Option<Time>)

  datatype Area = Area(
    id: Id,
    name: string,
    code: string,
    capacity: int,
    archivedAt: Option<Time>,
    createdAt: Time,
    updatedAt: Time)

  datatype Authorization = Authorization(
    id: Id,
    residentId: Id,
    plate: PlateText,
    areaId: Id,
    start: Time,
    end: Time,
    status: AuthStatus,
    purpose: string,
    createdBy: string,
    archivedAt: Option<Time>,
    createdAt: Time,
    updatedAt: Time)

  datatype Record = Record(
    id: Id,
    authId: Id,
    plate: PlateText,
    areaId: Id,
    entryTime: Time,
    exitTime: Option<Time>,
    exitOperator: string,
    exitNote: string,
    status: RecordStatus,
    createdAt: Time,
    updatedAt: Time)

  datatype Action =
    | AuthCreate
    | AuthUpdate
    | AuthArchive
    | AuthRevoke
    | EntryRecord
    | ExitRecord
    | AreaUpdate
    | OtherAction(text: string)

  datatype AuditLog = AuditLog(
    id: Id,
    action: Action,
    entityType: string,
    entityId: Id,
    operator: string,
    createdAt: Time)

  /** What the store holds, as values. */
  datatype State = State(
    residents: map<Id, Resident>,
    areas: map<Id, Area>,
    auths: map<Id, Authorization>,
    records: map<Id, Record>,
    logs: map<Id, AuditLog>)

  const EMPTY := State(map[], map[], map[], map[], map[])
}
