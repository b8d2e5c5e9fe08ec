/** The request handlers of the school activity API over its two
    process-wide registries. Each handler returns the reply the client
    receives: a body with status 200, or an error status with its detail
    text. */
module App {
  import opened Wrappers
  import opened Participants
  import opened Registry
  import opened Credentials

  /** What a handler answers. */
  datatype Reply =
    | LoggedIn(token: string)              // 200, {"token": ...}
    | Done(message: string)                // 200, {"message": ...}
    | Failed(status: nat, detail: string)  // an HTTP error with its detail
  {
    function Status(): nat {
      if Failed? then status else 200
    }
  }

  const CredentialsRequired := "username and password required"
  const InvalidCredentials := "invalid credentials"
  const TokenRequired := "admin token required"
  const ActivityNotFound := "Activity not found"
  const AlreadySignedUp := "Student is already signed up"
  const NotSignedUp := "Student is not signed up for this activity"

  /** Python truthiness of an optional string: sent and not empty. */
  predicate Present(s: Option<string>) {
    s.Some? && s.value != ""
  }

  /** The admin-token guard of the protected handlers: a token was sent, it
      is not empty, and it belongs to a session. */
  predicate Authorized(token: Option<string>, sessions: map<string, string>) {
    Present(token) && token.value in sessions
  }

  /** The process state: the in-memory activity registry, the session
      registry (token -> teacher username) and the last content written to
      the catalog file (`None` while the file does not exist). */
  class Roster {
    var activities: Activities
    var sessions: map<string, string>
    var persisted: Option<Activities>

    /** Reloading the catalog file always gives the in-memory registry, and
        every session has a non-empty token and a non-empty username. */
    ghost predicate Valid()
      reads this
    {
      && activities == LoadActivities(persisted)
      && forall t :: t in sessions ==> t != "" && sessions[t] != ""
    }

    /** Process start: the registry is loaded from the catalog file and there
        are no sessions. */
    constructor (stored: Option<Activities>)
      ensures Valid()
      ensures persisted == stored && activities == LoadActivities(stored)
      ensures sessions == map[]
    {
      activities := LoadActivities(stored);
      sessions := map[];
      persisted := stored;
    }

    /** `GET /activities`: the whole registry, which is always what the
        catalog file holds. */
    function GetActivities(): (r: Activities)
      reads this
      requires Valid()
      ensures r == LoadActivities(persisted)
    {
      activities
    }

    /** `POST /admin/login`. `credentials` is the teacher file as read during
        this call; `freshToken` stands for the random UUID the handler
        generates. */
    method Login(username: Option<string>, password: Option<string>,
                 credentials: Option<CredentialFile>, freshToken: string)
      returns (reply: Reply)
      requires Valid()
      requires freshToken != "" && freshToken !in sessions
      modifies this`sessions
      ensures Valid()
      ensures activities == old(activities) && persisted == old(persisted)
      ensures !(Present(username) && Present(password)) ==>
        reply == Failed(400, CredentialsRequired) && sessions == old(sessions)
      ensures (Present(username) && Present(password) &&
        AnyMatch(LoadTeachers(credentials), username.value, password.value)) ==>
        reply == LoggedIn(freshToken) && sessions == old(sessions)[freshToken := username.value]
      ensures (Present(username) && Present(password) &&
        !AnyMatch(LoadTeachers(credentials), username.value, password.value)) ==>
        reply == Failed(401, InvalidCredentials) && sessions == old(sessions)
    {
      if !Present(username) || !Present(password) {
        return Failed(400, CredentialsRequired);
      }
      var teachers := LoadTeachers(credentials);
      var i := FindTeacher(teachers, username.value, password.value);
      if i < |teachers| {
        sessions := sessions[freshToken := username.value];
        return LoggedIn(freshToken);
      }
      reply := Failed(401, InvalidCredentials);
    }

    /** `POST /activities/{activityName}/signup?email=...`: token check,
        then existence check, then duplicate check; on success the email is
        appended and the registry is written back to the catalog file. */
    method Signup(activityName: string, email: Email, token: Option<string>)
      returns (reply: Reply)
      requires Valid()
      modifies this`activities, this`persisted
      ensures Valid() && sessions == old(sessions)
      ensures !Authorized(token, sessions) ==>
        reply == Failed(401, TokenRequired)
        && activities == old(activities) && persisted == old(persisted)
      ensures Authorized(token, sessions) && activityName !in old(activities) ==>
        reply == Failed(404, ActivityNotFound)
        && activities == old(activities) && persisted == old(persisted)
      ensures (Authorized(token, sessions) && activityName in old(activities) &&
        email in ParticipantsOf(old(activities)[activityName])) ==>
        reply == Failed(400, AlreadySignedUp)
        && activities == old(activities) && persisted == old(persisted)
      ensures (Authorized(token, sessions) && activityName in old(activities) &&
        email !in ParticipantsOf(old(activities)[activityName])) ==>
        reply == Done("Signed up " + email + " for " + activityName)
        && activities == WithParticipant(old(activities), activityName, email)
        && persisted == Some(activities)
      ensures NoDuplicateParticipants(old(activities)) ==> NoDuplicateParticipants(activities)
    {
      if !Authorized(token, sessions) {
        return Failed(401, TokenRequired);
      }
      if activityName !in activities {
        return Failed(404, ActivityNotFound);
      }
      if email in ParticipantsOf(activities[activityName]) {
        return Failed(400, AlreadySignedUp);
      }
      if NoDuplicateParticipants(activities) {
        WithParticipantKeepsNoDuplicates(activities, activityName, email);
      }
      activities := WithParticipant(activities, activityName, email);
      persisted := Some(activities);
      reply := Done("Signed up " + email + " for " + activityName);
    }

    /** `DELETE /activities/{activityName}/unregister?email=...`: token
        check, then existence check, then presence check; on success the
        first occurrence of the email is removed and the registry is written
        back to the catalog file. */
    method Unregister(activityName: string, email: Email, token: Option<string>)
      returns (reply: Reply)
      requires Valid()
      modifies this`activities, this`persisted
      ensures Valid() && sessions == old(sessions)
      ensures !Authorized(token, sessions) ==>
        reply == Failed(401, TokenRequired)
        && activities == old(activities) && persisted == old(persisted)
      ensures Authorized(token, sessions) && activityName !in old(activities) ==>
        reply == Failed(404, ActivityNotFound)
        && activities == old(activities) && persisted == old(persisted)
      ensures (Authorized(token, sessions) && activityName in old(activities) &&
        email !in ParticipantsOf(old(activities)[activityName])) ==>
        reply == Failed(400, NotSignedUp)
        && activities == old(activities) && persisted == old(persisted)
      ensures (Authorized(token, sessions) && activityName in old(activities) &&
        email in ParticipantsOf(old(activities)[activityName])) ==>
        reply == Done("Unregistered " + email + " from " + activityName)
        && activities == WithoutParticipant(old(activities), activityName, email)
        && persisted == Some(activities)
      ensures NoDuplicateParticipants(old(activities)) ==> NoDuplicateParticipants(activities)
    {
      if !Authorized(token, sessions) {
        return Failed(401, TokenRequired);
      }
      if activityName !in activities {
        return Failed(404, ActivityNotFound);
      }
      if email !in ParticipantsOf(activities[activityName]) {
        return Failed(400, NotSignedUp);
      }
      if NoDuplicateParticipants(activities) {
        WithoutParticipantKeepsNoDuplicates(activities, activityName, email);
      }
      activities := WithoutParticipant(activities, activityName, email);
      persisted := Some(activities);
      reply := Done("Unregistered " + email + " from " + activityName);
    }
  }

  /** A session of calls against a fresh process: a teacher logs in, signs a
      student up, repeats the signup, unregisters the student, and a call
      without a token is refused. `token` stands for the generated UUID. */
  method ChessClubSession(token: string)
    requires token != ""
  {
    var club := "Chess Club";
    var teachers := Some(CredentialFile(Some([Teacher(Some("ms1"), Some("pass123"))])));
    var roster := new Roster(Some(map[club := Activity(Some(["a@x.edu"]))]));

    assert Matches(LoadTeachers(teachers)[0], "ms1", "pass123");
    var reply := roster.Login(Some("ms1"), Some("pass123"), teachers, token);
    assert reply == LoggedIn(token);

    reply := roster.Signup(club, "new@student.edu", Some(token));
    assert reply.Status() == 200;
    assert ParticipantsOf(roster.GetActivities()[club]) == ["a@x.edu", "new@student.edu"];

    reply := roster.Signup(club, "new@student.edu", Some(token));
    assert reply == Failed(400, AlreadySignedUp);

    var enrolled := ["a@x.edu", "new@student.edu"];
    assert IndexOf(enrolled, "new@student.edu") == 1;
    assert enrolled[..1] + enrolled[2..] == ["a@x.edu"];
    reply := roster.Unregister(club, "new@student.edu", Some(token));
    assert reply.Status() == 200;
    assert roster.GetActivities()[club] == Activity(Some(["a@x.edu"]));

    reply := roster.Signup(club, "other@student.edu", None);
    assert reply == Failed(401, TokenRequired);
  }
}
