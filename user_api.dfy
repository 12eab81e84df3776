// The user record the admin list's browser code works with: the JSON the
// server's listing returns. Dates stay the strings JSON carries them as.
module UserApi {
  import opened Wrappers
  import UserListController

  datatype User = User(
    id: string,
    email: string,
    firstName: string,
    lastName: string,
    isAdmin: bool,
    authFlags: set<UserListController.AuthType>,
    suspended: bool,
    inactive: bool,
    deleted: bool,
    deletedId: Option<string>,
    deletedAt: Option<string>,
    signUpDate: Option<string>,
    lastActive: Option<string>)
}
