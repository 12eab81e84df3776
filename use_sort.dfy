// The column-header sort toggle of the admin user list.
module UseSort {
  import UserListController

  /** `toggleSort`. */
  function ToggleSort(order: string): (r: string)
    ensures r == "asc" || r == "desc"
    ensures r == "desc" <==> order == "asc"
  {
    if order == "asc" then "desc" else "asc"
  }

  /** Toggling twice restores a valid order. */
  lemma ToggleSortInvolution(order: string)
    requires order == "asc" || order == "desc"
    ensures ToggleSort(ToggleSort(order)) == order
  {
  }

  /** `handleSort`: the state updater receives the pending sort `prev`,
      while the order it toggles is the rendered `sort.order`. */
  function HandleSort(prev: UserListController.SortRequest, rendered: UserListController.SortRequest,
                      key: string): (r: UserListController.SortRequest)
    ensures r.key == key
    ensures prev.key == key ==> r.order == ToggleSort(rendered.order)
    ensures prev.key != key ==> r.order == rendered.order
  {
    UserListController.SortRequest(key, if prev.key == key then ToggleSort(rendered.order) else rendered.order)
  }

  /** Clicking the current column flips the order, and clicking it again
      flips it back; clicking another column keeps the order. */
  lemma ClickingTwiceRestores(sort: UserListController.SortRequest)
    requires sort.order == "asc" || sort.order == "desc"
    ensures HandleSort(sort, sort, sort.key).order != sort.order
    ensures var once := HandleSort(sort, sort, sort.key);
            HandleSort(once, once, sort.key) == sort
  {
  }
}
