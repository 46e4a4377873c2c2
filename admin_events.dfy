/**
 * The event form of the admin panel
 * (src/components/admin/AdminEventManagement.tsx): how a submitted form
 * becomes the record sent to the create and update mutations, and the
 * handler state around it (the open dialogs and the selected event).
 */
module AdminEvents {
  import opened Wrappers
  import opened Events

  /**
   * A submitted `FormData`: `get(name)` for each named control of the form,
   * absent (`null`) where the control posted nothing.
   */
  datatype FormData = FormData(
    title: Option<string>,
    auxiliary: Option<string>,
    scope: Option<string>,
    qiadat: Option<string>,
    isSports: Option<string>,
    startDate: Option<string>,
    startTime: Option<string>,
    endDate: Option<string>,
    endTime: Option<string>,
    allDay: Option<string>,
    location: Option<string>,
    description: Option<string>,
    recurrenceRule: Option<string>,
    createdByRole: Option<string>)

  /**
   * The event fields both mutations receive. The casts `as string`,
   * `as Scope` and the like change nothing at run time, so these are the
   * form strings themselves.
   */
  datatype EventPayload = EventPayload(
    title: Option<string>,
    auxiliary: Option<string>,
    scope: Option<string>,
    qiadat: Option<string>,
    isSports: bool,
    startDate: Option<string>,
    startTime: Option<string>,
    endDate: Option<string>,
    endTime: Option<string>,
    allDay: bool,
    location: Option<string>,
    description: Option<string>,
    recurrenceRule: Option<string>)

  /** What `handleCreateEvent` sends: the fields, the creator's user id and the chosen role. */
  datatype CreateRequest = CreateRequest(fields: EventPayload, createdBy: string, createdByRole: Option<string>)

  /** What `handleUpdateEvent` sends: the selected event's id and the fields; no creator. */
  datatype UpdateRequest = UpdateRequest(id: string, fields: EventPayload)

  /** `x as string || undefined`: a value that is absent or empty is dropped. */
  function OptionalText(x: Option<string>): (r: Option<string>)
    ensures r.Some? <==> Truthy(x)
    ensures r.Some? ==> r == x && r.value != ""
  {
    if Truthy(x) then x else None
  }

  /** `get(name) === 'on'`: a switch counts as on only when it posted "on". */
  predicate Checked(x: Option<string>) {
    x == Some("on")
  }

  /** The payload a form yields, in both handlers alike. */
  function PayloadOf(fd: FormData): (p: EventPayload)
    ensures p.qiadat.Some? ==> fd.scope == Some("Local")
    ensures fd.scope == Some("Local") ==> p.qiadat == fd.qiadat
    ensures p.isSports <==> fd.isSports == Some("on")
    ensures p.allDay <==> fd.allDay == Some("on")
    ensures p.startTime == (if Truthy(fd.startTime) then fd.startTime else None)
    ensures p.endDate == (if Truthy(fd.endDate) then fd.endDate else None)
    ensures p.endTime == (if Truthy(fd.endTime) then fd.endTime else None)
    ensures p.description == (if Truthy(fd.description) then fd.description else None)
    ensures p.recurrenceRule == (if Truthy(fd.recurrenceRule) then fd.recurrenceRule else None)
    ensures p.title == fd.title && p.location == fd.location && p.startDate == fd.startDate
    ensures p.auxiliary == fd.auxiliary && p.scope == fd.scope
  {
    EventPayload(
      fd.title,
      fd.auxiliary,
      fd.scope,
      if fd.scope == Some("Local") then fd.qiadat else None,
      Checked(fd.isSports),
      fd.startDate,
      OptionalText(fd.startTime),
      OptionalText(fd.endDate),
      OptionalText(fd.endTime),
      Checked(fd.allDay),
      fd.location,
      OptionalText(fd.description),
      OptionalText(fd.recurrenceRule))
  }

  /** Every optional text the payload carries is non-empty. */
  lemma PayloadHasNoEmptyOptionals(fd: FormData)
    ensures var p := PayloadOf(fd);
      (p.startTime.Some? ==> p.startTime.value != "") &&
      (p.endDate.Some? ==> p.endDate.value != "") &&
      (p.endTime.Some? ==> p.endTime.value != "") &&
      (p.description.Some? ==> p.description.value != "") &&
      (p.recurrenceRule.Some? ==> p.recurrenceRule.value != "")
  {
  }

  /**
   * The form an edit dialog submits when nothing is changed: each text
   * input posts its default (empty where the event has none), each select
   * its default, each switch "on" exactly when it starts checked; the
   * qiadat select is rendered only for a Local event.
   */
  function EditFormOf(e: Event): FormData {
    FormData(
      Some(e.title),
      Some(AuxiliaryName(e.auxiliary)),
      Some(ScopeName(e.scope)),
      if e.scope == Local && e.qiadat.Some? then Some(QiadatName(e.qiadat.value)) else None,
      if e.isSports then Some("on") else None,
      Some(e.startDate),
      Some(e.startTime.GetOr("")),
      Some(e.endDate.GetOr("")),
      Some(e.endTime.GetOr("")),
      if e.allDay then Some("on") else None,
      Some(e.location),
      Some(e.description.GetOr("")),
      Some(e.recurrenceRule.GetOr("")),
      Some(AdminRoleName(e.createdByRole)))
  }

  /**
   * Submitting an untouched edit form writes the event back as it was,
   * except that empty optional texts become absent and a qiadat on a
   * non-Local event is dropped.
   */
  lemma EditFormRoundTrip(e: Event)
    ensures var p := PayloadOf(EditFormOf(e));
      p.title == Some(e.title) && p.location == Some(e.location) && p.startDate == Some(e.startDate) &&
      ParseAuxiliary(p.auxiliary.value) == Some(e.auxiliary) &&
      ParseScope(p.scope.value) == Some(e.scope) &&
      p.qiadat == (if e.scope == Local && e.qiadat.Some? then Some(QiadatName(e.qiadat.value)) else None) &&
      p.isSports == e.isSports && p.allDay == e.allDay &&
      p.startTime == OptionalText(e.startTime) && p.endDate == OptionalText(e.endDate) &&
      p.endTime == OptionalText(e.endTime) && p.description == OptionalText(e.description) &&
      p.recurrenceRule == OptionalText(e.recurrenceRule)
  {
    var fd := EditFormOf(e);
    assert (fd.scope == Some("Local")) == (e.scope == Local) by {
      if e.scope != Local {
        assert ScopeName(e.scope)[0] != 'L';
      }
    }
    assert OptionalText(Some(e.startTime.GetOr(""))) == OptionalText(e.startTime);
    assert OptionalText(Some(e.endDate.GetOr(""))) == OptionalText(e.endDate);
    assert OptionalText(Some(e.endTime.GetOr(""))) == OptionalText(e.endTime);
    assert OptionalText(Some(e.description.GetOr(""))) == OptionalText(e.description);
    assert OptionalText(Some(e.recurrenceRule.GetOr(""))) == OptionalText(e.recurrenceRule);
  }

  /** The choices of the "Your Role" select. */
  const RoleOptions: seq<string> := ["Mosque Manager", "Local Nazim", "Qaid", "Sadar Jamaat", "Murabbi", "Other"]

  /** The choices of the qiadat select. */
  const QiadatOptions: seq<Qiadat> := [Solihull, South, West, Central, North, Walsall, Wolverhampton]

  /**
   * Three of the six role choices are not admin roles at all, and the
   * role Sadr is never offered.
   */
  lemma RoleOptionsVersusRoles()
    ensures forall i :: 0 <= i < |RoleOptions| ==>
      (ParseAdminRole(RoleOptions[i]).None? <==> RoleOptions[i] in ["Local Nazim", "Sadar Jamaat", "Other"])
    ensures AdminRoleName(Sadr) !in RoleOptions
  {
  }

  /** The qiadat select offers every qiadat exactly once. */
  lemma QiadatOptionsComplete(q: Qiadat)
    ensures q in QiadatOptions
    ensures forall i, j :: 0 <= i < j < |QiadatOptions| ==> QiadatOptions[i] != QiadatOptions[j]
  {
    match q {
      case Solihull => assert QiadatOptions[0] == q;
      case South => assert QiadatOptions[1] == q;
      case West => assert QiadatOptions[2] == q;
      case Central => assert QiadatOptions[3] == q;
      case North => assert QiadatOptions[4] == q;
      case Walsall => assert QiadatOptions[5] == q;
      case Wolverhampton => assert QiadatOptions[6] == q;
    }
  }

  /** `handleDeleteEvent`: the delete goes out only when `confirm` is answered yes. */
  method HandleDeleteEvent(eventId: string, confirmed: bool) returns (deleted: Option<string>)
    ensures deleted.Some? <==> confirmed
    ensures deleted.Some? ==> deleted.value == eventId
  {
    if confirmed {
      deleted := Some(eventId);
    } else {
      deleted := None;
    }
  }

  /** The state of the event-management panel. */
  class EventManager {
    var selectedEvent: Option<Event>
    var isCreateDialogOpen: bool
    var isEditDialogOpen: bool

    constructor()
      ensures selectedEvent == None && !isCreateDialogOpen && !isEditDialogOpen
    {
      selectedEvent := None;
      isCreateDialogOpen := false;
      isEditDialogOpen := false;
    }

    /** The edit button of a listed event selects it and opens the edit dialog. */
    method EditClicked(e: Event)
      modifies this
      ensures selectedEvent == Some(e) && isEditDialogOpen
      ensures isCreateDialogOpen == old(isCreateDialogOpen)
    {
      selectedEvent := Some(e);
      isEditDialogOpen := true;
    }

    /** The "Create Event" trigger, or closing the create dialog. */
    method SetCreateDialogOpen(open: bool)
      modifies this
      ensures isCreateDialogOpen == open
      ensures selectedEvent == old(selectedEvent) && isEditDialogOpen == old(isEditDialogOpen)
    {
      isCreateDialogOpen := open;
    }

    /** Closing the edit dialog by its own controls; the selection stays. */
    method SetEditDialogOpen(open: bool)
      modifies this
      ensures isEditDialogOpen == open
      ensures selectedEvent == old(selectedEvent) && isCreateDialogOpen == old(isCreateDialogOpen)
    {
      isEditDialogOpen := open;
    }

    /**
     * `handleCreateEvent`. `sessionUser` is the id of the session's user, if
     * any; `resolves` says whether the insert succeeds. Without a user, no
     * request goes out and the error flag is raised; with one, the request
     * carries the user's id and the dialog closes once the insert resolves.
     */
    method HandleCreateEvent(fd: FormData, sessionUser: Option<string>, resolves: bool)
      returns (request: Option<CreateRequest>, authError: bool)
      modifies this
      ensures authError <==> sessionUser.None?
      ensures request.Some? <==> sessionUser.Some?
      ensures request.Some? ==>
        request.value == CreateRequest(PayloadOf(fd), sessionUser.value, fd.createdByRole)
      ensures isCreateDialogOpen == (old(isCreateDialogOpen) && !(sessionUser.Some? && resolves))
      ensures selectedEvent == old(selectedEvent) && isEditDialogOpen == old(isEditDialogOpen)
    {
      if sessionUser.None? {
        return None, true;
      }
      request := Some(CreateRequest(PayloadOf(fd), sessionUser.value, fd.createdByRole));
      authError := false;
      if resolves {
        isCreateDialogOpen := false;
      }
    }

    /**
     * `handleUpdateEvent`. With no event selected nothing happens; otherwise
     * the request carries the selected event's id, and once the update
     * resolves the edit dialog closes and the selection is cleared.
     */
    method HandleUpdateEvent(fd: FormData, resolves: bool) returns (request: Option<UpdateRequest>)
      modifies this
      ensures request.Some? <==> old(selectedEvent).Some?
      ensures request.Some? ==> request.value == UpdateRequest(old(selectedEvent).value.id, PayloadOf(fd))
      ensures old(selectedEvent).None? ==> selectedEvent == None && isEditDialogOpen == old(isEditDialogOpen)
      ensures old(selectedEvent).Some? && resolves ==> selectedEvent == None && !isEditDialogOpen
      ensures old(selectedEvent).Some? && !resolves ==>
        selectedEvent == old(selectedEvent) && isEditDialogOpen == old(isEditDialogOpen)
      ensures isCreateDialogOpen == old(isCreateDialogOpen)
    {
      if selectedEvent.None? {
        return None;
      }
      request := Some(UpdateRequest(selectedEvent.value.id, PayloadOf(fd)));
      if resolves {
        isEditDialogOpen := false;
        selectedEvent := None;
      }
    }
  }
}
