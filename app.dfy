/** The view state of frontend/src/App.tsx and its handlers. Every awaited call is a
    parameter saying how it ended: `Option<...>` is `None` when the request failed,
    a `bool` says whether a request without a useful reply succeeded, and
    `confirmed` is the answer to the delete confirmation. A handler that lets a
    rejection escape to the form returns `false`. */
module App {
  import opened Types
  import UserService
  import UserTable

  datatype Theme = Light | Dark
  datatype ViewMode = ListMode | DetailMode | CreateMode | EditMode
  datatype ToastKind = Success | Failure
  datatype Toast = Toast(kind: ToastKind, message: string)

  const PageSize := 10

  const LoadFailed := Toast(Failure, "Error al cargar usuarios")
  const DetailFailed := Toast(Failure, "No se pudo cargar el detalle del usuario")
  const EditLoadFailed := Toast(Failure, "No se pudo cargar el usuario para editar")
  const Deleted := Toast(Success, "Usuario eliminado correctamente")
  const DeleteFailed := Toast(Failure, "No se pudo eliminar el usuario")
  const Created := Toast(Success, "Usuario creado correctamente")
  const Updated := Toast(Success, "Usuario actualizado correctamente")

  function Toggled(t: Theme): (r: Theme)
    ensures r != t
  {
    if t == Dark then Light else Dark
  }

  /** Toggling twice restores the theme. */
  lemma ToggleTwice(t: Theme)
    ensures Toggled(Toggled(t)) == t
  {
  }

  /** `handlePageChange`'s guard: the page lies in `[1, totalPages]`. */
  predicate PageInRange(newPage: int, totalPages: int)
  {
    !(newPage < 1 || newPage > totalPages)
  }

  /** What the server's list reply to a request for `page` looks like: the page is
      echoed, the page size is the one asked for, and the page count is not
      negative. */
  predicate ReplyTo(page: int, r: PaginatedUsers)
  {
    r.page == page && r.pageSize == PageSize && r.totalPages >= 0
  }

  /** The back end's list reply has that shape. */
  lemma BackendReplies(users: map<int, User>, nextId: int, page: int)
    requires UserService.WellFormed(users, nextId) && page >= 1
    ensures ReplyTo(page, UserService.ListPage(users, nextId, page, PageSize))
  {
    UserService.ListPageCounters(users, nextId, page, PageSize);
  }

  /** Asking the back end for a page past the last one (as the reload after
      deleting the only record of the last page does) gives no records and a
      page count below the page shown, while the total is unchanged. When that
      page is not the first and the earlier pages are full, the total is not 0. */
  lemma PagePastTheEnd(users: map<int, User>, nextId: int, page: int)
    requires UserService.WellFormed(users, nextId) && page >= 1
    requires UserService.Offset(page, PageSize) >= |users|
    ensures UserService.ListPage(users, nextId, page, PageSize).data == []
    ensures UserService.ListPage(users, nextId, page, PageSize).totalPages < page
    ensures UserService.ListPage(users, nextId, page, PageSize).total == |users|
    ensures page >= 2 && UserService.Offset(page, PageSize) == |users| ==>
              UserService.ListPage(users, nextId, page, PageSize).total >= PageSize
  {
    UserService.ListPageWindow(users, nextId, page, PageSize);
    UserService.OrderedHoldsAll(users, nextId);
    UserService.ListPageCounters(users, nextId, page, PageSize);
    var r := UserService.ListPage(users, nextId, page, PageSize);
    if r.totalPages >= page {
      UserService.MulMonotone(page - 1, r.totalPages - 1, PageSize);
    }
  }

  /** An enabled "next" always gets past `handlePageChange`'s guard. */
  lemma NextPassesGuard(page: int, totalPages: int, loading: bool)
    requires page >= 1
    requires UserTable.NextEnabled(page, totalPages, loading)
    ensures PageInRange(UserTable.NextTarget(page), totalPages)
  {
    UserTable.NextGuard(page, totalPages, loading);
  }

  /** An enabled "previous" gets past the guard unless the page shown is more than
      one past the last page. */
  lemma PrevPassesGuard(page: int, totalPages: int, loading: bool)
    requires UserTable.PrevEnabled(page, loading)
    ensures PageInRange(UserTable.PrevTarget(page), totalPages) <==> page <= totalPages + 1
  {
    UserTable.PrevGuard(page, loading);
  }

  /** What the side column shows. */
  datatype Panel = DetailPanel(user: User) | CreateForm | EditForm(user: User) | Placeholder | Blank

  function SidePanel(mode: ViewMode, selected: Option<User>): (p: Panel)
    ensures mode == DetailMode && selected.Some? ==> p == DetailPanel(selected.value)
    ensures mode == CreateMode ==> p == CreateForm
    ensures mode == EditMode && selected.Some? ==> p == EditForm(selected.value)
    ensures mode == ListMode && selected.None? ==> p == Placeholder
  {
    match mode
    case DetailMode => if selected.Some? then DetailPanel(selected.value) else Blank
    case CreateMode => CreateForm
    case EditMode => if selected.Some? then EditForm(selected.value) else Blank
    case ListMode => if selected.None? then Placeholder else Blank
  }

  /** The selection agrees with the view: list and create have none, detail and
      edit have one. */
  predicate Consistent(mode: ViewMode, selected: Option<User>)
  {
    (mode == ListMode || mode == CreateMode) <==> selected.None?
  }

  /** In a consistent state the side column is never blank, and a shown record is
      the selected one. */
  lemma ConsistentPanel(mode: ViewMode, selected: Option<User>)
    requires Consistent(mode, selected)
    ensures SidePanel(mode, selected) != Blank
    ensures SidePanel(mode, selected).DetailPanel? || SidePanel(mode, selected).EditForm?
            ==> selected == Some(SidePanel(mode, selected).user)
  {
  }

  class AppState {
    var theme: Theme
    var mode: ViewMode
    var users: seq<User>
    var page: int
    var totalPages: int
    var total: int
    var selectedUser: Option<User>
    var toast: Option<Toast>

    ghost predicate Valid()
      reads this
    {
      page >= 1 && totalPages >= 1 && Consistent(mode, selectedUser)
    }

    constructor ()
      ensures theme == Dark && mode == ListMode && users == [] && page == 1
      ensures totalPages == 1 && total == 0 && selectedUser == None && toast == None
      ensures Valid()
    {
      theme := Dark;
      mode := ListMode;
      users := [];
      page := 1;
      totalPages := 1;
      total := 0;
      selectedUser := None;
      toast := None;
    }

    method ToggleTheme()
      modifies this
      ensures theme == Toggled(old(theme))
      ensures mode == old(mode) && users == old(users) && page == old(page) && totalPages == old(totalPages)
      ensures total == old(total) && selectedUser == old(selectedUser) && toast == old(toast)
    {
      theme := Toggled(theme);
    }

    /** `loadUsers(pageToLoad)` with the reply `res`: the page, its records and the
        counters come from the reply, a page count of 0 becomes 1; a failed request
        only raises a toast. */
    method LoadUsers(pageToLoad: int, res: Option<PaginatedUsers>)
      requires Valid() && pageToLoad >= 1
      requires res.Some? ==> ReplyTo(pageToLoad, res.value)
      modifies this
      ensures Valid()
      ensures theme == old(theme) && mode == old(mode) && selectedUser == old(selectedUser)
      ensures res.Some? ==>
                && users == res.value.data && page == pageToLoad && total == res.value.total
                && totalPages == UserTable.PageCount(res.value.totalPages)
                && toast == old(toast)
      ensures res.None? ==>
                && users == old(users) && page == old(page) && totalPages == old(totalPages)
                && total == old(total) && toast == Some(LoadFailed)
    {
      if res.None? {
        toast := Some(LoadFailed);
        return;
      }
      var r := res.value;
      users := r.data;
      page := r.page;
      totalPages := if r.totalPages == 0 then 1 else r.totalPages;
      total := r.total;
    }

    /** `handleSelectUser(user)` with the fetched copy fetched for it. */
    method HandleSelectUser(user: User, fetched: Option<User>)
      requires Valid()
      modifies this
      ensures Valid()
      ensures fetched.Some? ==> selectedUser == fetched && mode == DetailMode && toast == old(toast)
      ensures fetched.None? ==> selectedUser == old(selectedUser) && mode == old(mode) && toast == Some(DetailFailed)
      ensures theme == old(theme) && users == old(users) && page == old(page)
      ensures totalPages == old(totalPages) && total == old(total)
    {
      if fetched.None? {
        toast := Some(DetailFailed);
        return;
      }
      selectedUser := fetched;
      mode := DetailMode;
    }

    method HandleCreateClick()
      requires Valid()
      modifies this
      ensures Valid()
      ensures selectedUser == None && mode == CreateMode
      ensures theme == old(theme) && users == old(users) && page == old(page)
      ensures totalPages == old(totalPages) && total == old(total) && toast == old(toast)
    {
      selectedUser := None;
      mode := CreateMode;
    }

    /** `handleEditClick(user)` with the fetched copy fetched for it. */
    method HandleEditClick(user: User, fetched: Option<User>)
      requires Valid()
      modifies this
      ensures Valid()
      ensures fetched.Some? ==> selectedUser == fetched && mode == EditMode && toast == old(toast)
      ensures fetched.None? ==> selectedUser == old(selectedUser) && mode == old(mode) && toast == Some(EditLoadFailed)
      ensures theme == old(theme) && users == old(users) && page == old(page)
      ensures totalPages == old(totalPages) && total == old(total)
    {
      if fetched.None? {
        toast := Some(EditLoadFailed);
        return;
      }
      selectedUser := fetched;
      mode := EditMode;
    }

    /** `handleDelete(user)`: nothing unless confirmed; a failed delete raises a
        toast; a successful one clears the selection (back to the list) when it was
        the deleted record, then reloads the current page. */
    method HandleDelete(user: User, confirmed: bool, deleted: bool, res: Option<PaginatedUsers>)
      requires Valid()
      requires res.Some? ==> ReplyTo(page, res.value)
      modifies this
      ensures Valid()
      ensures theme == old(theme)
      ensures !confirmed ==>
                && mode == old(mode) && selectedUser == old(selectedUser) && users == old(users)
                && page == old(page) && totalPages == old(totalPages) && total == old(total)
                && toast == old(toast)
      ensures confirmed && !deleted ==>
                && mode == old(mode) && selectedUser == old(selectedUser) && users == old(users)
                && page == old(page) && totalPages == old(totalPages) && total == old(total)
                && toast == Some(DeleteFailed)
      ensures confirmed && deleted && old(selectedUser).Some? && old(selectedUser).value.id == user.id ==>
                selectedUser == None && mode == ListMode
      ensures confirmed && deleted && !(old(selectedUser).Some? && old(selectedUser).value.id == user.id) ==>
                selectedUser == old(selectedUser) && mode == old(mode)
      ensures confirmed && deleted ==>
                page == old(page) && toast == (if res.None? then Some(LoadFailed) else Some(Deleted))
      ensures confirmed && deleted && res.Some? ==>
                && users == res.value.data && total == res.value.total
                && totalPages == UserTable.PageCount(res.value.totalPages)
      ensures confirmed && deleted && res.None? ==>
                users == old(users) && totalPages == old(totalPages) && total == old(total)
    {
      if !confirmed {
        return;
      }
      if !deleted {
        toast := Some(DeleteFailed);
        return;
      }
      toast := Some(Deleted);
      if selectedUser.Some? && selectedUser.value.id == user.id {
        selectedUser := None;
        mode := ListMode;
      }
      LoadUsers(page, res);
    }

    /** `handleSubmitCreate(data)`, submitted from the create form: a failed create
        leaves everything as it was and the rejection reaches the form; otherwise
        back to the list and reload. */
    method HandleSubmitCreate(created: bool, res: Option<PaginatedUsers>) returns (ok: bool)
      requires Valid() && mode == CreateMode
      requires res.Some? ==> ReplyTo(page, res.value)
      modifies this
      ensures Valid()
      ensures ok == created
      ensures theme == old(theme) && selectedUser == old(selectedUser)
      ensures !created ==>
                && mode == old(mode) && users == old(users) && page == old(page)
                && totalPages == old(totalPages) && total == old(total) && toast == old(toast)
      ensures created ==> mode == ListMode && page == old(page)
      ensures created ==> toast == (if res.None? then Some(LoadFailed) else Some(Created))
      ensures created && res.Some? ==>
                && users == res.value.data && total == res.value.total
                && totalPages == UserTable.PageCount(res.value.totalPages)
      ensures created && res.None? ==>
                users == old(users) && totalPages == old(totalPages) && total == old(total)
    {
      if !created {
        ok := false;
        return;
      }
      toast := Some(Created);
      mode := ListMode;
      LoadUsers(page, res);
      ok := true;
    }

    /** `handleSubmitEdit(data)`: nothing without a selection; a failed update
        leaves everything as it was; otherwise the detail view, then the record is
        fetched again (a failure there also reaches the form) and the page reloaded. */
    method HandleSubmitEdit(updated: bool, fetched: Option<User>, res: Option<PaginatedUsers>) returns (ok: bool)
      requires Valid()
      requires res.Some? ==> ReplyTo(page, res.value)
      modifies this
      ensures Valid()
      ensures theme == old(theme) && page == old(page)
      ensures old(selectedUser).None? ==>
                && ok && mode == old(mode) && selectedUser == None && users == old(users)
                && totalPages == old(totalPages) && total == old(total) && toast == old(toast)
      ensures old(selectedUser).Some? && !updated ==>
                && !ok && mode == old(mode) && selectedUser == old(selectedUser) && users == old(users)
                && totalPages == old(totalPages) && total == old(total) && toast == old(toast)
      ensures old(selectedUser).Some? && updated ==> mode == DetailMode
      ensures old(selectedUser).Some? && updated && fetched.None? ==>
                && !ok && selectedUser == old(selectedUser) && users == old(users)
                && totalPages == old(totalPages) && total == old(total)
                && toast == Some(Updated)
      ensures old(selectedUser).Some? && updated && fetched.Some? ==>
                && ok && selectedUser == fetched
                && toast == (if res.None? then Some(LoadFailed) else Some(Updated))
      ensures old(selectedUser).Some? && updated && fetched.Some? && res.Some? ==>
                && users == res.value.data && total == res.value.total
                && totalPages == UserTable.PageCount(res.value.totalPages)
      ensures old(selectedUser).Some? && updated && fetched.Some? && res.None? ==>
                users == old(users) && totalPages == old(totalPages) && total == old(total)
    {
      if selectedUser.None? {
        ok := true;
        return;
      }
      if !updated {
        ok := false;
        return;
      }
      toast := Some(Updated);
      mode := DetailMode;
      if fetched.None? {
        ok := false;
        return;
      }
      selectedUser := fetched;
      LoadUsers(page, res);
      ok := true;
    }

    method HandleBackToList()
      requires Valid()
      modifies this
      ensures Valid()
      ensures mode == ListMode && selectedUser == None
      ensures theme == old(theme) && users == old(users) && page == old(page)
      ensures totalPages == old(totalPages) && total == old(total) && toast == old(toast)
    {
      mode := ListMode;
      selectedUser := None;
    }

    /** The edit form's cancel button: back to the detail of the same record. */
    method HandleCancelEdit()
      requires Valid() && mode == EditMode
      modifies this
      ensures Valid()
      ensures mode == DetailMode && selectedUser == old(selectedUser)
      ensures theme == old(theme) && users == old(users) && page == old(page)
      ensures totalPages == old(totalPages) && total == old(total) && toast == old(toast)
    {
      mode := DetailMode;
    }

    /** `handlePageChange(newPage)`: a page outside `[1, totalPages]` changes
        nothing; any other is loaded. */
    method HandlePageChange(newPage: int, res: Option<PaginatedUsers>)
      requires Valid()
      requires res.Some? ==> ReplyTo(newPage, res.value)
      modifies this
      ensures Valid()
      ensures theme == old(theme) && mode == old(mode) && selectedUser == old(selectedUser)
      ensures !PageInRange(newPage, old(totalPages)) ==>
                && users == old(users) && page == old(page) && totalPages == old(totalPages)
                && total == old(total) && toast == old(toast)
      ensures PageInRange(newPage, old(totalPages)) && res.Some? ==>
                && page == newPage && users == res.value.data && total == res.value.total
                && totalPages == UserTable.PageCount(res.value.totalPages) && toast == old(toast)
      ensures PageInRange(newPage, old(totalPages)) && res.None? ==>
                && users == old(users) && page == old(page) && totalPages == old(totalPages)
                && total == old(total) && toast == Some(LoadFailed)
    {
      if newPage < 1 || newPage > totalPages {
        return;
      }
      LoadUsers(newPage, res);
    }
  }
}
