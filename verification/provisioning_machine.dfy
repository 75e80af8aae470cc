/**
 The provisioning life cycle of one board as a machine over single file operations.

 A state is the disk, the process's volatile memory and the point in the code the
 daemon goroutine has reached. Every rename and every removal is one event, carries
 its own outcome, and `Crash` is enabled everywhere, so a list of events is one
 interleaving of the daemon with disk errors, power cuts, network answers and clients.
 */
module ProvisioningMachine {
  import opened Common

  const SECOND: int := 1_000_000_000
  const WINDOW: int := 600 * SECOND

  // A certificate binds the cloud key of the CSR and the device id it was issued with.
  datatype Certificate = Certificate(key: nat, subject: string, serial: nat)

  datatype File = MarkerFile | CertFile | DeviceIdFile | OrganizationFile | KeyFile

  // The marker holds the start time of the attempt in flight.
  datatype Disk = Disk(
    marker: Option<int>,
    cert: Option<Certificate>,
    deviceId: Option<string>,
    organizationId: Option<string>,
    cloudKey: Option<nat>)

  datatype ProvisioningState = Unprovisioned | InFlight | Provisioned | Failed

  datatype DaemonState = CheckInternetState | ProvisioningStage | RunState

  // Who asked for the credentials to be wiped.
  datatype Wipe = ForPrelude(org: string) | ForExpiry

  datatype Pc =
    | Down                                        // no process
    | BootKey                                     // keystore.New, cloud key pair
    | CheckInternet
    | Parked                                      // Provisioning, waiting for a command
    | BeginPrelude(org: string)                   // BeginProvisioning
    | WriteMarker(org: string)
    | WipeCert(wipe: Wipe)
    | WipeDeviceId(wipe: Wipe)
    | WipeOrganization(wipe: Wipe)
    | StoreOrganization(org: string)
    | Rollback                                    // prelude failed after the marker
    | Reply(ok: bool)                             // answer the REST caller
    | AttemptStart                                // RunAttempt
    | RemoveKey(deadline: int)
    | WriteKey(deadline: int)
    | BuildCsr(deadline: int)
    | SubmitCsr(deadline: int, csrKey: nat)
    | StoreCert(deadline: int, issued: Certificate)
    | StoreDeviceId(deadline: int, id: string)
    | Complete(deadline: int)                     // completePhase
    | ClearDone
    | ClearExpired
    | AttemptDone                                 // RunAttempt returned nil
    | EnterRun                                    // transition(Run), cloud.New
    | Running
    | Stopping(next: Option<string>)              // cancelled, waiting for the cloud FSM
    | Detaching(next: Option<string>)             // cloud FSM has returned

  // Volatile memory. `accepted` and `replies` list the requests this process took and answered.
  datatype Process = Process(
    completeFailed: bool,
    cloudUp: bool,
    attached: bool,
    snapshot: DaemonState,
    owed: Option<nat>,
    accepted: seq<nat>,
    replies: seq<nat>)

  // `activated` is history: the certificates on disk when provision/complete was carried out.
  datatype State = State(pc: Pc, disk: Disk, now: int, activated: set<Certificate>, proc: Process)

  datatype Event =
    | Tick(to: int)
    | Crash
    | Start
    | Proceed                       // a step with no outcome of its own
    | Refused                       // token, CSR, permission or read failure
    | WriteOk(written: File)
    | WriteErr(unwritten: File)
    | NewKey(key: nat)
    | RemoveOk(removed: File)
    | RemoveErr(kept: File)
    | Command(id: nat, org: string)
    | Issue(subject: string, serial: nat)
    | CompleteOk
    | CompleteLost                  // carried out, but its answer never arrived
    | Expired
    | Cancelled
    | CloudExits

  const EMPTY_DISK := Disk(None, None, None, None, None)
  const FRESH_PROCESS := Process(false, false, false, CheckInternetState, None, [], [])

  function Init(now: int): State {
    State(Down, EMPTY_DISK, now, {}, FRESH_PROCESS)
  }

  predicate HasCredentials(d: Disk) {
    d.cert.Some? && d.deviceId.Some?
  }

  function StateOf(completeFailed: bool, d: Disk, now: int): ProvisioningState {
    if completeFailed then Failed
    else if d.marker.Some? then
      (if now < d.marker.value + WINDOW then InFlight else Failed)
    else if HasCredentials(d) then Provisioned
    else Unprovisioned
  }

  // A process that ends keeps its disk and loses its memory.
  function Halt(s: State): State {
    s.(pc := Down, proc := FRESH_PROCESS)
  }

  function Accept(s: State, id: nat): State {
    s.(proc := s.proc.(owed := Some(id), accepted := s.proc.accepted + [id]))
  }

  // `transition` publishes the stage along with the move.
  function Enter(s: State, pc: Pc, stage: DaemonState): State {
    s.(pc := pc, proc := s.proc.(snapshot := stage))
  }

  // An attempt that ran out of its window is remembered in memory only.
  function ParkFailed(s: State): State {
    s.(pc := Parked, proc := s.proc.(completeFailed := true))
  }

  function At(s: State, pc: Pc): Option<State> {
    Some(s.(pc := pc))
  }

  function AfterFailedWipe(w: Wipe): Pc {
    if w.ForPrelude? then Rollback else ClearExpired
  }

  function AfterWipe(w: Wipe): Pc {
    match w
    case ForExpiry => ClearExpired
    case ForPrelude(org) => if org == "" then Reply(true) else StoreOrganization(org)
  }

  // The event's effect, or None where the code has no such step.
  function Apply(s: State, e: Event): Option<State> {
    match e
    case Tick(to) => if s.now <= to then Some(s.(now := to)) else None
    case Crash => if s.pc.Down? then None else Some(Halt(s))
    case Start => if s.pc.Down? then Some(s.(pc := BootKey)) else None
    case Proceed => ApplyProceed(s)
    case Refused => ApplyRefused(s)
    case WriteOk(f) => ApplyWrite(s, f)
    case WriteErr(f) => ApplyWriteErr(s, f)
    case NewKey(k) =>
      (match s.pc
       case BootKey =>
         if s.disk.cloudKey.None? then
           Some(s.(pc := CheckInternet, disk := s.disk.(cloudKey := Some(k))))
         else None
       case WriteKey(d) => Some(s.(pc := BuildCsr(d), disk := s.disk.(cloudKey := Some(k))))
       case _ => None)
    case RemoveOk(f) => ApplyRemove(s, f)
    case RemoveErr(f) => ApplyRemoveErr(s, f)
    case Command(id, org) =>
      (match s.pc
       case Parked => At(Accept(s, id), BeginPrelude(org))
       case Running => At(Accept(s, id), Stopping(Some(org)))
       case _ => None)
    case Issue(subject, serial) =>
      (match s.pc
       case SubmitCsr(d, k) => At(s, StoreCert(d, Certificate(k, subject, serial)))
       case _ => None)
    case CompleteOk =>
      if s.pc.Complete? && s.disk.cert.Some? then
        Some(s.(pc := ClearDone, activated := s.activated + {s.disk.cert.value}))
      else None
    case CompleteLost =>
      if s.pc.Complete? && s.disk.cert.Some? then
        Some(s.(activated := s.activated + {s.disk.cert.value}))
      else None
    case Expired =>
      (match s.pc
       case SubmitCsr(d, _) => if d <= s.now then At(s, Parked) else None
       case Complete(d) => if d <= s.now then At(s, WipeCert(ForExpiry)) else None
       case _ => None)
    case Cancelled =>
      (match s.pc
       case Running => At(s, Stopping(None))
       case CheckInternet | Parked | SubmitCsr(_, _) | Complete(_) => Some(Halt(s))
       case _ => None)
    case CloudExits =>
      if s.pc.Stopping? then
        Some(s.(pc := Detaching(s.pc.next), proc := s.proc.(cloudUp := false)))
      else None
  }

  function ApplyProceed(s: State): Option<State> {
    match s.pc
    case BootKey => if s.disk.cloudKey.Some? then At(s, CheckInternet) else None
    case CheckInternet =>
      (match StateOf(s.proc.completeFailed, s.disk, s.now)
       case InFlight => Some(Enter(s, AttemptStart, ProvisioningStage))
       case Provisioned => Some(Enter(s, EnterRun, RunState))
       case _ => Some(Enter(s, Parked, ProvisioningStage)))
    case Reply(ok) =>
      if s.proc.owed.Some? then
        Some(s.(pc := if ok then AttemptStart else Parked,
             proc := s.proc.(snapshot := ProvisioningStage, owed := None,
             replies := s.proc.replies + [s.proc.owed.value])))
      else None
    case AttemptStart =>
      if s.disk.marker.None? then At(s, Parked)
      else if HasCredentials(s.disk) then At(s, Complete(s.disk.marker.value + WINDOW))
      else At(s, RemoveKey(s.disk.marker.value + WINDOW))
    case AttemptDone => Some(Enter(s, EnterRun, RunState))
    case BuildCsr(d) =>
      if s.disk.cloudKey.Some? then At(s, SubmitCsr(d, s.disk.cloudKey.value)) else None
    case EnterRun =>
      if s.disk.deviceId.Some? then Some(s.(pc := Running, proc := s.proc.(attached := true, cloudUp := true)))
      else None
    case Detaching(next) =>
      if next.Some? then Some(s.(pc := BeginPrelude(next.value), proc := s.proc.(attached := false)))
      else Some(Halt(s))
    case BeginPrelude(org) =>                                  // a remembered failure is forgotten
      Some(s.(pc := WriteMarker(org), proc := s.proc.(completeFailed := false)))
    case _ => None
  }

  function ApplyRefused(s: State): Option<State> {
    match s.pc
    case BootKey => Some(Halt(s))
    case CheckInternet => Some(s)                              // probe failed, retry
    case AttemptStart | RemoveKey(_) | BuildCsr(_) => At(s, Parked)
    case EnterRun => Some(Enter(s, CheckInternet, CheckInternetState))
    case _ => None
  }

  // A rename has put the new content in place.
  function ApplyWrite(s: State, f: File): Option<State> {
    match (s.pc, f)
    case (WriteMarker(org), MarkerFile) =>
      Some(s.(pc := WipeCert(ForPrelude(org)), disk := s.disk.(marker := Some(s.now))))
    case (StoreOrganization(org), OrganizationFile) =>
      Some(s.(pc := Reply(true), disk := s.disk.(organizationId := Some(org))))
    case (StoreCert(d, c), CertFile) =>
      Some(s.(pc := StoreDeviceId(d, c.subject), disk := s.disk.(cert := Some(c))))
    case (StoreDeviceId(d, id), DeviceIdFile) =>
      Some(s.(pc := Complete(d), disk := s.disk.(deviceId := Some(id))))
    case _ => None
  }

  function ApplyWriteErr(s: State, f: File): Option<State> {
    match (s.pc, f)
    case (BootKey, KeyFile) => if s.disk.cloudKey.None? then Some(Halt(s)) else None
    case (WriteMarker(_), MarkerFile) => At(s, Reply(false))
    case (StoreOrganization(_), OrganizationFile) => At(s, Rollback)
    case (WriteKey(_), KeyFile) => At(s, Parked)
    case (StoreCert(_, _), CertFile) => At(s, Parked)
    case (StoreDeviceId(_, _), DeviceIdFile) => At(s, Parked)
    case _ => None
  }

  // A removal that succeeded, or found nothing to remove.
  function ApplyRemove(s: State, f: File): Option<State> {
    match (s.pc, f)
    case (WipeCert(w), CertFile) =>
      Some(s.(pc := WipeDeviceId(w), disk := s.disk.(cert := None)))
    case (WipeDeviceId(w), DeviceIdFile) =>
      Some(s.(pc := WipeOrganization(w), disk := s.disk.(deviceId := None)))
    case (WipeOrganization(w), OrganizationFile) =>
      Some(s.(pc := AfterWipe(w), disk := s.disk.(organizationId := None)))
    case (RemoveKey(d), KeyFile) =>
      Some(s.(pc := WriteKey(d), disk := s.disk.(cloudKey := None)))
    case (Rollback, MarkerFile) =>
      Some(s.(pc := Reply(false), disk := s.disk.(marker := None)))
    case (ClearDone, MarkerFile) =>
      Some(s.(pc := AttemptDone, disk := s.disk.(marker := None)))
    case (ClearExpired, MarkerFile) =>
      Some(ParkFailed(s).(disk := s.disk.(marker := None)))
    case _ => None
  }

  // A removal that returned an I/O error and left the file.
  function ApplyRemoveErr(s: State, f: File): Option<State> {
    match (s.pc, f)
    case (WipeCert(w), CertFile) => At(s, AfterFailedWipe(w))
    case (WipeDeviceId(w), DeviceIdFile) => At(s, AfterFailedWipe(w))
    case (WipeOrganization(w), OrganizationFile) => At(s, AfterFailedWipe(w))
    case (RemoveKey(_), KeyFile) => At(s, Parked)
    case (Rollback, MarkerFile) => At(s, Reply(false))
    case (ClearDone, MarkerFile) => At(s, AttemptDone)
    case (ClearExpired, MarkerFile) => Some(ParkFailed(s))
    case _ => None
  }

  // The state after a whole list of events from a factory-fresh board, if it is a run.
  function Exec(now: int, events: seq<Event>): Option<State> {
    if events == [] then Some(Init(now))
    else
      match Exec(now, events[..|events| - 1])
      case None => None
      case Some(s) => Apply(s, events[|events| - 1])
  }

  predicate IsRun(now: int, events: seq<Event>) {
    Exec(now, events).Some?
  }
}
