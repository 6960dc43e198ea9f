/** The `userv1.UserInfo` message, shared by the user stores and the ledger. */
module UserProto {

  /** A user record. The services pass it by pointer and only the user directory's
      UpdateUser writes to it (login and email); nothing ever changes its id. */
  class UserInfo {
    const id: string
    var login: string
    var email: string

    constructor (id: string, login: string, email: string)
      ensures this.id == id && this.login == login && this.email == email
    {
      this.id := id;
      this.login := login;
      this.email := email;
    }
  }
}
