/** The records of the service: a task document and a registered user. */
module Models {

  /** A MongoDB ObjectID: twelve bytes. */
  type ObjectId = s: seq<bv8> | |s| == 12 witness [0, 0, 0, 0, 0, 0, 0, 0, 0, 0, 0, 0]

  /** A task document (models/task.go). */
  datatype Task = Task(id: ObjectId, title: string, description: string, dueDate: string, status: string)

  /** A registered user; `password` holds the bcrypt hash, never the plaintext. */
  datatype User = User(id: int, username: string, password: string, role: string)

  const RoleAdmin: string := "admin"
  const RoleUser: string := "user"
}
