// The confirmation dialog that runs one admin action over a batch of
// users, one after the other, collecting the users it failed for.
module UsersActionModal {
  import opened Wrappers
  import opened UserApi

  datatype Variant = Danger | Primary | Secondary

  /** The confirm button's variant: red for destructive or privilege
      granting actions, green for the ones that undo them. */
  function ButtonVariant(action: string): (r: Variant)
    ensures r == Danger <==> action in {"delete", "purge", "set_admin", "suspend"}
    ensures r == Primary <==> action in {"restore", "resume", "unset_admin"}
  {
    if action in {"delete", "purge", "set_admin", "suspend"} then Danger
    else if action in {"restore", "resume", "unset_admin"} then Primary
    else Secondary
  }

  /** One entry of the error list: the user's email and the failure. */
  datatype ActionError = ActionError(userName: string, error: string)

  /** How many of the handler calls were rejected. */
  function FailureCount(failures: seq<Option<string>>): (n: nat)
    ensures n <= |failures|
  {
    if failures == [] then 0
    else
      FailureCount(failures[..|failures| - 1]) + (if failures[|failures| - 1].Some? then 1 else 0)
  }

  /** The errors of a run: `failures[i]` is the rejection of the handler
      for `users[i]`, `None` when it resolved. Every failing user is
      listed once, in the order the users were processed: the error of
      `users[i]` comes after the errors of the users before it
      (`ErroredListsEachFailure`). */
  function Errored(users: seq<User>, failures: seq<Option<string>>): (r: seq<ActionError>)
    requires |failures| == |users|
    ensures |r| == FailureCount(failures) <= |users|
    ensures r == [] <==> forall i :: 0 <= i < |failures| ==> failures[i].None?
    ensures forall e :: e in r ==> exists i :: 0 <= i < |users| && failures[i].Some?
                                             && e == ActionError(users[i].email, failures[i].value)
    decreases |users|
  {
    if users == [] then []
    else
      var n := |users| - 1;
      var before := Errored(users[..n], failures[..n]);
      var last := if failures[n].Some? then [ActionError(users[n].email, failures[n].value)] else [];
      assert forall e :: e in before ==> exists i :: 0 <= i < |users| && failures[i].Some?
                                                    && e == ActionError(users[i].email, failures[i].value) by {
        forall e | e in before
          ensures exists i :: 0 <= i < |users| && failures[i].Some?
                              && e == ActionError(users[i].email, failures[i].value)
        {
          var i :| 0 <= i < n && failures[..n][i].Some? && e == ActionError(users[..n][i].email, failures[..n][i].value);
          assert failures[i] == failures[..n][i] && users[i] == users[..n][i];
        }
      }
      assert before == [] ==> forall i :: 0 <= i < n ==> failures[i].None? by {
        if before == [] {
          forall i | 0 <= i < n
            ensures failures[i].None?
          {
            assert failures[..n][i] == failures[i];
          }
        }
      }
      assert (forall i :: 0 <= i < |failures| ==> failures[i].None?) ==> before == [] by {
        if forall i :: 0 <= i < |failures| ==> failures[i].None? {
          assert forall i :: 0 <= i < n ==> failures[..n][i].None?;
        }
      }
      assert failures[..|failures| - 1] == failures[..n];
      before + last
  }

  /** The error of each failing user stands at the position given by the
      number of failures before it: every failing user is listed, once,
      in processing order. */
  lemma {:induction false} ErroredListsEachFailure(users: seq<User>, failures: seq<Option<string>>, i: int)
    requires |failures| == |users|
    requires 0 <= i < |users| && failures[i].Some?
    ensures FailureCount(failures[..i]) < |Errored(users, failures)|
    ensures Errored(users, failures)[FailureCount(failures[..i])] == ActionError(users[i].email, failures[i].value)
    decreases |users|
  {
    var n := |users| - 1;
    assert failures[..|failures| - 1] == failures[..n];
    if i < n {
      ErroredListsEachFailure(users[..n], failures[..n], i);
      assert failures[..n][..i] == failures[..i];
      assert failures[..n][i] == failures[i] && users[..n][i] == users[i];
    }
  }

  /** A failing user's position comes before that of every later user:
      the positions of `ErroredListsEachFailure` are distinct and follow
      the processing order. */
  lemma {:induction false} FailureCountGrows(failures: seq<Option<string>>, i: int, j: int)
    requires 0 <= i < j <= |failures| && failures[i].Some?
    ensures FailureCount(failures[..i]) < FailureCount(failures[..j])
    decreases j
  {
    assert failures[..j][..j - 1] == failures[..j - 1];
    if i < j - 1 {
      FailureCountGrows(failures, i, j - 1);
    } else {
      assert failures[..j][j - 1] == failures[i];
    }
  }

  /** A failure for every user lists every user, in order. */
  lemma {:induction false} AllFailedListsEveryone(users: seq<User>, failures: seq<Option<string>>)
    requires |failures| == |users|
    requires forall i :: 0 <= i < |failures| ==> failures[i].Some?
    ensures |Errored(users, failures)| == |users|
    ensures forall i :: 0 <= i < |users| ==> Errored(users, failures)[i].userName == users[i].email
    decreases |users|
  {
    if users != [] {
      var n := |users| - 1;
      AllFailedListsEveryone(users[..n], failures[..n]);
      forall i | 0 <= i < n
        ensures Errored(users, failures)[i].userName == users[i].email
      {
        assert users[..n][i] == users[i];
      }
    }
  }

  /** One more processed user adds its error, if it failed, at the end. */
  lemma ErroredSnoc(users: seq<User>, failures: seq<Option<string>>, i: nat)
    requires |failures| == |users| && i < |users|
    ensures Errored(users[..i + 1], failures[..i + 1])
            == Errored(users[..i], failures[..i])
               + (if failures[i].Some? then [ActionError(users[i].email, failures[i].value)] else [])
  {
    assert users[..i + 1][..i] == users[..i] && failures[..i + 1][..i] == failures[..i];
  }

  class Modal {
    var errors: seq<ActionError>
    var isProcessing: bool
    var closed: bool
    var mounted: bool
    /** The users handed to the action handler so far, in order. */
    var requested: seq<User>

    constructor ()
      ensures errors == [] && !isProcessing && !closed && mounted && requested == []
    {
      errors := [];
      isProcessing := false;
      closed := false;
      mounted := true;
      requested := [];
    }

    /** The confirm button cannot be pressed during a run. */
    predicate ConfirmDisabled()
      reads this
    {
      isProcessing
    }

    /** The error notifications shown, once the run is over. */
    function ShownErrors(): (r: seq<ActionError>)
      reads this
      ensures r == [] || (!isProcessing && r == errors)
    {
      if !isProcessing then errors else []
    }

    /** `handleActionForUsers`: `failures` gives the handler's outcome for
        each user, and `stillMounted` whether the dialog is still mounted
        when the loop ends. */
    method HandleActionForUsers(users: seq<User>, failures: seq<Option<string>>, stillMounted: bool)
      requires |failures| == |users|
      modifies this
      ensures requested == old(requested) + users
      ensures errors == Errored(users, failures)
      ensures closed <==> old(closed) || errors == []
      ensures mounted == stillMounted
      ensures isProcessing == !stillMounted
    {
      isProcessing := true;
      errors := [];
      var errored := ProcessUsers(users, failures);
      mounted := stillMounted;
      if mounted {
        isProcessing := false;
      }
      if |errored| == 0 {
        closed := true;
      } else {
        errors := errored;
      }
    }

    /** The loop of `handleActionForUsers`: each user goes to the handler
        in turn, and the failed ones are collected in order. */
    method ProcessUsers(users: seq<User>, failures: seq<Option<string>>) returns (errored: seq<ActionError>)
      requires |failures| == |users|
      modifies this`requested
      ensures requested == old(requested) + users
      ensures errored == Errored(users, failures)
    {
      errored := [];
      var i := 0;
      while i < |users|
        invariant 0 <= i <= |users|
        invariant errored == Errored(users[..i], failures[..i])
        invariant requested == old(requested) + users[..i]
      {
        ErroredSnoc(users, failures, i);
        requested := requested + [users[i]];
        if failures[i].Some? {
          errored := errored + [ActionError(users[i].email, failures[i].value)];
        }
        assert users[..i + 1] == users[..i] + [users[i]];
        i := i + 1;
      }
      assert users[..i] == users && failures[..i] == failures;
    }
  }
}
