/** The record the panel shows for a TURN user. */
module Types {
  datatype TurnUser = TurnUser(username: string, realm: string)
}
