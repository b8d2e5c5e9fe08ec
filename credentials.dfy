/** Teacher credentials, stored read-only in `teachers.json` as
    `{"teachers": [{"username": ..., "password": ...}, ...]}`. */
module Credentials {
  import opened Wrappers

  /** One entry of the teacher list; either field may be missing. */
  datatype Teacher = Teacher(username: Option<string>, password: Option<string>)

  /** The credential file; its `teachers` key may be missing. */
  datatype CredentialFile = CredentialFile(teachers: Option<seq<Teacher>>)

  /** `load_teachers`: the `teachers` list of the file, or empty when the
      file or the key does not exist. */
  function LoadTeachers(file: Option<CredentialFile>): seq<Teacher> {
    match file
    case None => []
    case Some(f) => f.teachers.GetOr([])
  }

  /** Both stored fields equal the given ones exactly (no hashing, no case
      folding). */
  predicate Matches(t: Teacher, username: string, password: string) {
    t.username == Some(username) && t.password == Some(password)
  }

  /** Some teacher of the list has exactly these credentials. */
  predicate AnyMatch(teachers: seq<Teacher>, username: string, password: string) {
    exists t :: t in teachers && Matches(t, username, password)
  }

  /** The scan of the teacher list in `admin_login`: the position of the
      first teacher with these credentials, or `|teachers|` when there is
      none. */
  method FindTeacher(teachers: seq<Teacher>, username: string, password: string) returns (i: nat)
    ensures i <= |teachers|
    ensures forall j :: 0 <= j < i ==> !Matches(teachers[j], username, password)
    ensures i < |teachers| ==> Matches(teachers[i], username, password)
    ensures i < |teachers| <==> AnyMatch(teachers, username, password)
  {
    i := 0;
    while i < |teachers|
      invariant i <= |teachers|
      invariant forall j :: 0 <= j < i ==> !Matches(teachers[j], username, password)
    {
      if Matches(teachers[i], username, password) {
        return;
      }
      i := i + 1;
    }
  }
}
