/** The records the pages keep in the browser's local storage. */
module Records {

  datatype Option<+T> = None | Some(value: T)

  /** A director account as the local-storage admin console keeps it.
      `id` is a `Date.now()` string and `createdAt` an ISO timestamp in the
      source; both are opaque strings here. */
  datatype Director = Director(
    id: string,
    firstName: string,
    lastName: string,
    schoolName: string,
    schoolId: string,
    phoneNumber: string,
    password: string,
    isActive: bool,
    createdAt: string)

  /** The six fields of the admin console's add/edit form. */
  datatype DirectorForm = DirectorForm(
    firstName: string,
    lastName: string,
    schoolName: string,
    schoolId: string,
    phoneNumber: string,
    password: string)

  /** The session record the login page stores and the other pages read back. */
  datatype SessionUser = SessionUser(
    role: string,
    name: string,
    schoolId: string,
    loginTime: string)

  /** The form the edit button fills in from a director (`handleEdit`). */
  function FormOf(d: Director): DirectorForm {
    DirectorForm(d.firstName, d.lastName, d.schoolName, d.schoolId, d.phoneNumber, d.password)
  }
}
