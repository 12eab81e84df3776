// What the admin user list does after a per-user action: which request it
// sends, and how the view is updated once the server answers. The view
// updates are the callbacks the list passes in, returned here as effects.
module UserActions {
  import opened Wrappers
  import opened UserApi

  /** The flag a flag action sends. */
  datatype FlagUpdate = SetIsAdmin(isAdmin: bool) | SetSuspended(suspended: bool)

  /** The `performFlagUser` switch; `None` for an action it does not know. */
  function FlagOf(action: string): (r: Option<FlagUpdate>)
    ensures action == "set_admin" <==> r == Some(SetIsAdmin(true))
    ensures action == "unset_admin" <==> r == Some(SetIsAdmin(false))
    ensures action == "suspend" <==> r == Some(SetSuspended(true))
    ensures action == "resume" <==> r == Some(SetSuspended(false))
  {
    if action == "set_admin" then Some(SetIsAdmin(true))
    else if action == "unset_admin" then Some(SetIsAdmin(false))
    else if action == "suspend" then Some(SetSuspended(true))
    else if action == "resume" then Some(SetSuspended(false))
    else None
  }

  /** `{ ...user, ...flag }`. */
  function ApplyFlag(user: User, flag: FlagUpdate): (r: User)
    ensures flag.SetIsAdmin? ==> r.isAdmin == flag.isAdmin && r.(isAdmin := user.isAdmin) == user
    ensures flag.SetSuspended? ==> r.suspended == flag.suspended && r.(suspended := user.suspended) == user
  {
    match flag
    case SetIsAdmin(v) => user.(isAdmin := v)
    case SetSuspended(v) => user.(suspended := v)
  }

  /** The server's answer to a delete. */
  datatype DeletedData = DeletedData(deletedId: string, deletedAt: string)

  datatype Request =
    | DeleteRequest(userId: string, skipEmail: bool)
    | FlagRequest(userId: string, flag: FlagUpdate)
    | RestoreRequest(userId: string)
    | PurgeRequest(userId: string)

  /** A view callback invoked after the request succeeded. */
  datatype Effect =
    | ToggleSelected(id: string, selected: bool)
    | UpdateView(user: User)
    | RemoveFromView(user: User)

  /** `NoRequest`: returned without calling the server; `Rejected`: the
      request failed and the promise rejects without touching the view. */
  datatype Outcome =
    | NoRequest
    | Rejected(request: Request)
    | Resolved(request: Request, effects: seq<Effect>)

  /** `performDeleteUser`; `reply` is the server's answer, `None` when the
      request fails. */
  function PerformDelete(user: User, sendEmail: bool, reply: Option<DeletedData>): (r: Outcome)
    ensures r != NoRequest && r.request == DeleteRequest(user.id, !sendEmail)
    ensures reply.None? <==> r.Rejected?
    ensures r.Resolved? ==> |r.effects| == 2 && r.effects[0] == ToggleSelected(user.id, false)
    ensures r.Resolved? ==> r.effects[1].UpdateView?
                            && r.effects[1].user == user.(deleted := true,
                                                         deletedId := Some(reply.value.deletedId),
                                                         deletedAt := Some(reply.value.deletedAt))
  {
    var request := DeleteRequest(user.id, !sendEmail);
    match reply
    case None => Rejected(request)
    case Some(data) =>
      var updated := user.(deletedId := Some(data.deletedId), deletedAt := Some(data.deletedAt), deleted := true);
      Resolved(request, [ToggleSelected(user.id, false), UpdateView(updated)])
  }

  /** `performFlagUser`; `succeeded` is whether the server accepted it. */
  function PerformFlag(user: User, action: string, succeeded: bool): (r: Outcome)
    ensures FlagOf(action).None? <==> r == NoRequest
    ensures r != NoRequest ==> r.request == FlagRequest(user.id, FlagOf(action).value)
    ensures r.Resolved? <==> FlagOf(action).Some? && succeeded
    ensures r.Resolved? ==> r.effects == [ToggleSelected(user.id, false),
                                          UpdateView(ApplyFlag(user, FlagOf(action).value))]
  {
    match FlagOf(action)
    case None => NoRequest
    case Some(flag) =>
      var request := FlagRequest(user.id, flag);
      if !succeeded then Rejected(request)
      else Resolved(request, [ToggleSelected(user.id, false), UpdateView(ApplyFlag(user, flag))])
  }

  /** `performRestoreUser`. */
  function PerformRestore(user: User, succeeded: bool): (r: Outcome)
    ensures r != NoRequest && r.request == RestoreRequest(user.id)
    ensures r.Resolved? <==> succeeded
    ensures r.Resolved? ==> |r.effects| == 2 && r.effects[0] == ToggleSelected(user.id, false)
                            && r.effects[1].UpdateView?
    ensures r.Resolved? ==> r.effects[1].user == user.(deletedId := None, deletedAt := None,
                                                       deleted := false, suspended := false)
  {
    var request := RestoreRequest(user.id);
    if !succeeded then Rejected(request)
    else
      var restored := user.(deletedId := None, deletedAt := None, deleted := false, suspended := false);
      Resolved(request, [ToggleSelected(user.id, false), UpdateView(restored)])
  }

  /** `performPurgeUser`: the only effect is dropping the record. */
  function PerformPurge(user: User, succeeded: bool): (r: Outcome)
    ensures r != NoRequest && r.request == PurgeRequest(user.id)
    ensures r.Resolved? <==> succeeded
    ensures r.Resolved? ==> r.effects == [RemoveFromView(user)]
  {
    var request := PurgeRequest(user.id);
    if succeeded then Resolved(request, [RemoveFromView(user)]) else Rejected(request)
  }

  /** A flag changes exactly the field it names, and the record keeps its id. */
  lemma FlagChangesOnlyItsField(user: User, action: string)
    requires FlagOf(action).Some?
    ensures var u := ApplyFlag(user, FlagOf(action).value);
            u.id == user.id
            && (action == "set_admin" || action == "unset_admin" ==>
                  u.isAdmin == (action == "set_admin") && u.(isAdmin := user.isAdmin) == user)
            && (action == "suspend" || action == "resume" ==>
                  u.suspended == (action == "suspend") && u.(suspended := user.suspended) == user)
  {
  }

  /** Suspending then resuming, or granting then revoking admin rights,
      leaves the record with the flag off and nothing else changed. */
  lemma FlagActionsUndo(user: User)
    ensures ApplyFlag(ApplyFlag(user, FlagOf("suspend").value), FlagOf("resume").value)
            == user.(suspended := false)
    ensures ApplyFlag(ApplyFlag(user, FlagOf("set_admin").value), FlagOf("unset_admin").value)
            == user.(isAdmin := false)
  {
  }

  /** Every successful delete, flag or restore first deselects the user. */
  lemma SuccessDeselects(user: User, sendEmail: bool, data: DeletedData, action: string)
    requires FlagOf(action).Some?
    ensures forall r :: r in [PerformDelete(user, sendEmail, Some(data)),
                              PerformFlag(user, action, true),
                              PerformRestore(user, true)]
                        ==> r.Resolved? && r.effects[0] == ToggleSelected(user.id, false)
  {
  }

  /** Restoring a deleted record clears the deletion fields, lifts any
      suspension and otherwise gives back the record before the delete. */
  lemma RestoreAfterDelete(user: User, sendEmail: bool, data: DeletedData)
    ensures var deleted := PerformDelete(user, sendEmail, Some(data)).effects[1].user;
            var restored := PerformRestore(deleted, true).effects[1].user;
            restored == user.(deletedId := None, deletedAt := None, deleted := false, suspended := false)
            && restored.id == user.id && !restored.deleted
  {
  }
}
