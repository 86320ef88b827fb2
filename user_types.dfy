/** The record types shared by the components (src/types/user.ts). */
module UserTypes {
  import opened Wrappers

  /** The presence states a user can be in. */
  datatype Status = Online | Away | Busy | Offline

  /** Who wrote a message, from the point of view of the signed-in user. */
  datatype Sender = Me | Other

  /** A row of the `profiles` table: the `User` record of the type definitions. */
  datatype Profile = Profile(
    id: string,
    userId: string,
    displayName: string,
    email: string,
    status: Status,
    lastSeen: Option<string>)
}
