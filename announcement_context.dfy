// The client's announcement state: the list fetched from the server, which
// one is current, and whether the modal showing it is open.
module AnnouncementContext {
  import opened Wrappers

  /** An announcement as the client sees it: its id and the server's
      `_shouldAutoShow` annotation, absent on older answers. */
  datatype Announcement = Announcement(id: string, title: string, shouldAutoShow: Option<bool>)

  /** An announcement is shown on load unless marked not to be; a missing
      mark counts as showing. */
  predicate AutoShows(a: Announcement)
  {
    a.shouldAutoShow != Some(false)
  }

  /** The position of the first announcement that shows on load. */
  function FirstAutoShow(items: seq<Announcement>): (r: Option<nat>)
    ensures r.Some? ==> r.value < |items| && AutoShows(items[r.value])
                        && forall j :: 0 <= j < r.value ==> !AutoShows(items[j])
    ensures r.None? ==> forall j :: 0 <= j < |items| ==> !AutoShows(items[j])
  {
    if items == [] then None
    else if AutoShows(items[0]) then Some(0)
    else
      match FirstAutoShow(items[1..])
      case None => None
      case Some(k) => Some(k + 1)
  }

  /** A dismissal sent to the server. */
  datatype Dismissal = Dismissal(id: string, dontShowAgain: bool)

  class AnnouncementState {
    var announcements: seq<Announcement>
    var currentIndex: nat
    var loading: bool
    var showModal: bool
    /** Dismissals sent, oldest first. */
    var dismissals: seq<Dismissal>

    constructor ()
      ensures announcements == [] && currentIndex == 0 && loading && !showModal && dismissals == []
    {
      announcements := [];
      currentIndex := 0;
      loading := true;
      showModal := false;
      dismissals := [];
    }

    /** `currentAnnouncement`: the one at the current index, if any. */
    function CurrentAnnouncement(): (r: Option<Announcement>)
      reads this
      ensures r.Some? <==> currentIndex < |announcements|
      ensures r.Some? ==> r.value == announcements[currentIndex]
    {
      if currentIndex < |announcements| then Some(announcements[currentIndex]) else None
    }

    predicate HasActiveAnnouncements()
      reads this
    {
      |announcements| > 0
    }

    /** `loadAnnouncements`: `reply` is the fetched list (`None` when the
        request fails, which changes nothing but `loading`). With
        `autoShow`, the first announcement marked to show becomes current
        and the modal opens, or the modal closes when there is none; a
        refresh without it starts at the first and leaves the modal as it
        is. */
    method LoadAnnouncements(autoShow: bool, reply: Option<seq<Announcement>>)
      modifies this`announcements, this`currentIndex, this`loading, this`showModal
      ensures !loading
      ensures reply.None? ==>
                announcements == old(announcements) && currentIndex == old(currentIndex)
                && showModal == old(showModal)
      ensures reply.Some? ==> announcements == reply.value
      ensures reply.Some? && !autoShow ==> currentIndex == 0 && showModal == old(showModal)
      ensures reply.Some? && autoShow ==>
                match FirstAutoShow(reply.value)
                case Some(i) => currentIndex == i && showModal
                case None => currentIndex == 0 && !showModal
    {
      loading := true;
      if reply.None? {
        loading := false;
        return;
      }
      var loaded := reply.value;
      announcements := loaded;
      currentIndex := 0;
      if |loaded| > 0 && autoShow {
        var first := FirstAutoShow(loaded);
        if first.Some? {
          currentIndex := first.value;
          showModal := true;
        } else {
          showModal := false;
        }
      } else {
        if !autoShow {
          loading := false;
          return;
        }
        showModal := false;
      }
      loading := false;
    }

    /** `handleDismiss`: tell the server about the current announcement,
        then move to the next one, or after the last close the modal and
        refresh without showing (`refreshReply` is that refresh's answer). */
    method HandleDismiss(dontShowAgain: bool, refreshReply: Option<seq<Announcement>>)
      modifies this
      ensures old(CurrentAnnouncement()).Some? ==>
                dismissals == old(dismissals) + [Dismissal(old(CurrentAnnouncement()).value.id, dontShowAgain)]
      ensures old(CurrentAnnouncement()).None? ==> dismissals == old(dismissals)
      ensures old(currentIndex) + 1 < |old(announcements)| ==>
                currentIndex == old(currentIndex) + 1 && showModal && announcements == old(announcements)
                && loading == old(loading)
      ensures old(currentIndex) + 1 >= |old(announcements)| ==>
                !showModal && currentIndex == 0 && !loading
                && announcements == (if refreshReply.Some? then refreshReply.value else old(announcements))
    {
      var current := CurrentAnnouncement();
      if current.Some? {
        dismissals := dismissals + [Dismissal(current.value.id, dontShowAgain)];
      }
      if currentIndex + 1 < |announcements| {
        currentIndex := currentIndex + 1;
        showModal := true;
      } else {
        showModal := false;
        currentIndex := 0;
        LoadAnnouncements(false, refreshReply);
      }
    }

    /** `openModal`: show the announcements from the first, if there are
        any. */
    method OpenModal()
      modifies this`currentIndex, this`showModal
      ensures HasActiveAnnouncements() ==> currentIndex == 0 && showModal
      ensures !HasActiveAnnouncements() ==> currentIndex == old(currentIndex) && showModal == old(showModal)
      ensures HasActiveAnnouncements() ==> CurrentAnnouncement() == Some(announcements[0])
    {
      if |announcements| > 0 {
        currentIndex := 0;
        showModal := true;
      }
    }

    method SetShowModal(show: bool)
      modifies this`showModal
      ensures showModal == show
    {
      showModal := show;
    }
  }
}
