/**
 * The user-management dialog (`UserManagement`): its form state, the
 * validation that guards a save, the choice between insert and update, the
 * confirmation gate on delete, and the role badge lookups.
 */
module UserManagement {
  import opened Wrappers
  import opened Strings
  import opened TaskModel

  /** The dialog's `formData`. */
  datatype UserForm = UserForm(name: string, role: string)

  const InitialForm := UserForm("", "social_media")

  /** The `userData` record handed to `insert` or `update` on `users`. */
  datatype UserRow = UserRow(name: string, role: string)

  /** The one write a save issues: an insert, or an update filtered by the edited user's id. */
  datatype UserWrite = InsertUser(row: UserRow) | UpdateUser(id: string, row: UserRow)

  /** `userData`: the trimmed name, non-empty and without surrounding whitespace, and the role as chosen. */
  function UserRowOf(form: UserForm): (r: UserRow)
    requires !IsBlank(form.name)
    ensures r.name == Trim(form.name)
    ensures r.name != [] && !IsWhitespace(r.name[0]) && !IsWhitespace(r.name[|r.name| - 1])
    ensures r.role == form.role
  {
    UserRow(Trim(form.name), form.role)
  }

  /** A save updates the edited user, by id, when there is one, and inserts otherwise. */
  function WriteFor(editingUser: Option<User>, row: UserRow): (w: UserWrite)
    ensures w.row == row
    ensures w.UpdateUser? <==> editingUser != None
    ensures w.UpdateUser? ==> w.id == editingUser.value.id
  {
    match editingUser
    case Some(u) => UpdateUser(u.id, row)
    case None => InsertUser(row)
  }

  /**
   * `getRoleLabel`: `Gerente` for `manager`, `Social Media` for `social_media`,
   * and the tag itself, unchanged, for exactly the other tags.
   */
  function RoleLabel(role: string): (text: string)
    ensures role == "manager" ==> text == "Gerente"
    ensures role == "social_media" ==> text == "Social Media"
    ensures text == role <==> role !in {"manager", "social_media"}
  {
    match role
    case "manager" => "Gerente"
    case "social_media" => "Social Media"
    case _ => role
  }

  const ManagerClass := "bg-primary text-primary-foreground"
  const SocialMediaClass := "bg-secondary text-secondary-foreground"
  const MutedClass := "bg-muted text-muted-foreground"

  /** `getRoleColor`: a class of its own for each known role, the muted class for every other tag. */
  function RoleColor(role: string): (cls: string)
    ensures cls in {ManagerClass, SocialMediaClass, MutedClass}
    ensures cls == ManagerClass <==> role == "manager"
    ensures cls == SocialMediaClass <==> role == "social_media"
  {
    match role
    case "manager" => ManagerClass
    case "social_media" => SocialMediaClass
    case _ => MutedClass
  }

  class Dialog {
    var showForm: bool
    var editingUser: Option<User>
    var formData: UserForm
    var loading: bool

    /** The list view with an empty form and no user being edited: the state `resetForm` restores. */
    predicate IsReset()
      reads this
    {
      formData == InitialForm && editingUser == None && !showForm
    }

    /** The dialog as first mounted. */
    constructor ()
      ensures IsReset() && !loading
    {
      showForm := false;
      editingUser := None;
      formData := InitialForm;
      loading := false;
    }

    /** `resetForm` (also the form's Cancel button): back to the initial state. */
    method ResetForm()
      modifies this
      ensures IsReset() && loading == old(loading)
    {
      formData := InitialForm;
      editingUser := None;
      showForm := false;
    }

    /** `handleEdit`: the form shows `user`'s name and role, and a save will update `user`. */
    method HandleEdit(user: User)
      modifies this
      ensures formData == UserForm(user.name, user.role) && editingUser == Some(user) && showForm
      ensures loading == old(loading)
    {
      formData := UserForm(user.name, user.role);
      editingUser := Some(user);
      showForm := true;
    }

    /** The "new user" button: shows the form as it stands. */
    method OpenNewUserForm()
      modifies this
      ensures showForm
      ensures formData == old(formData) && editingUser == old(editingUser) && loading == old(loading)
    {
      showForm := true;
    }

    method SetName(name: string)
      modifies this
      ensures formData == old(formData).(name := name)
      ensures editingUser == old(editingUser) && showForm == old(showForm) && loading == old(loading)
    {
      formData := formData.(name := name);
    }

    method SetRole(role: string)
      modifies this
      ensures formData == old(formData).(role := role)
      ensures editingUser == old(editingUser) && showForm == old(showForm) && loading == old(loading)
    {
      formData := formData.(role := role);
    }

    /**
     * `handleSubmit` up to its `await`: a blank name returns early with nothing
     * sent and nothing changed; otherwise exactly one write is sent, an update of
     * the edited user or an insert, and the dialog is loading while it is in flight.
     * The save button is disabled while a request is in flight, so a submit only
     * starts when the dialog is not loading.
     */
    method BeginSubmit() returns (write: Option<UserWrite>)
      requires !loading
      modifies this
      ensures formData == old(formData) && editingUser == old(editingUser) && showForm == old(showForm)
      ensures write == None <==> IsBlank(old(formData).name)
      ensures write != None ==> write.value == WriteFor(old(editingUser), UserRowOf(old(formData))) && loading
      ensures write == None ==> loading == old(loading)
    {
      if IsBlank(formData.name) {
        write := None;
        return;
      }
      loading := true;
      write := Some(WriteFor(editingUser, UserRowOf(formData)));
    }

    /**
     * `handleSubmit` after its `await`: a successful save resets the form and
     * notifies the page; a failed one keeps the form and the edited user. Either
     * way the dialog stops loading.
     */
    method FinishSubmit(saved: bool) returns (userUpdated: bool)
      modifies this
      ensures !loading && userUpdated == saved
      ensures saved ==> IsReset()
      ensures !saved ==> formData == old(formData) && editingUser == old(editingUser) && showForm == old(showForm)
    {
      if saved {
        ResetForm();
      }
      userUpdated := saved;
      loading := false;
    }

    /** The whole of `handleSubmit`, when the write, if sent, succeeds exactly when `saved`. */
    method HandleSubmit(saved: bool) returns (write: Option<UserWrite>, userUpdated: bool)
      requires !loading
      modifies this
      ensures write == None <==> IsBlank(old(formData).name)
      ensures write != None ==> write.value == WriteFor(old(editingUser), UserRowOf(old(formData)))
      ensures write == None ==>
                formData == old(formData) && editingUser == old(editingUser) && showForm == old(showForm)
                && loading == old(loading) && !userUpdated
      ensures write != None ==> !loading && userUpdated == saved
      ensures write != None && saved ==> IsReset()
      ensures write != None && !saved ==>
                formData == old(formData) && editingUser == old(editingUser) && showForm == old(showForm)
    {
      write := BeginSubmit();
      if write == None {
        userUpdated := false;
      } else {
        userUpdated := FinishSubmit(saved);
      }
    }

    /**
     * `handleDelete`: a delete of `userId` is sent only when the confirmation
     * prompt was accepted, and the page is notified only when that delete
     * succeeded. The dialog's own state is not touched.
     */
    method HandleDelete(userId: string, confirmed: bool, deleted: bool) returns (deleteId: Option<string>, userUpdated: bool)
      ensures deleteId != None <==> confirmed
      ensures deleteId != None ==> deleteId.value == userId
      ensures userUpdated <==> confirmed && deleted
    {
      if !confirmed {
        return None, false;
      }
      deleteId := Some(userId);
      userUpdated := deleted;
    }
  }
}
