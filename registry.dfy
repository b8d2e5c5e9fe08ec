/** The activity registry: activity name -> record, as held in memory by the
    API process and as stored in `activities.json`. Only the `participants`
    entry of a record is ever read or written; a record may lack it. */
module Registry {
  import opened Wrappers
  import opened Participants

  type Email = string

  /** One activity record. `participants` is `None` when the stored record
      has no `participants` key. */
  datatype Activity = Activity(participants: Option<seq<Email>>)

  type Activities = map<string, Activity>

  /** `activity.get("participants", [])`: the list, or empty when the key is
      absent. */
  function ParticipantsOf(a: Activity): seq<Email> {
    a.participants.GetOr([])
  }

  /** `load_activities`: the stored catalog, or an empty registry when the
      file does not exist. */
  function LoadActivities(file: Option<Activities>): Activities {
    file.GetOr(map[])
  }

  /** The registry after `activity.setdefault("participants", []).append(email)`
      on activity `name`: only that record changes, and its list becomes the
      old list (empty when the key was absent) with `email` at the end. */
  function WithParticipant(acts: Activities, name: string, email: Email): (r: Activities)
    requires name in acts
    ensures r.Keys == acts.Keys
    ensures forall n :: n in acts && n != name ==> r[n] == acts[n]
    ensures r[name].participants.Some?
    ensures ParticipantsOf(r[name]) == ParticipantsOf(acts[name]) + [email]
  {
    acts[name := Activity(Some(ParticipantsOf(acts[name]) + [email]))]
  }

  /** The registry after `activity["participants"].remove(email)` on activity
      `name`: only that record changes, and its list loses the first
      occurrence of `email`, the rest keeping their order. */
  function WithoutParticipant(acts: Activities, name: string, email: Email): (r: Activities)
    requires name in acts && email in ParticipantsOf(acts[name])
    ensures r.Keys == acts.Keys
    ensures forall n :: n in acts && n != name ==> r[n] == acts[n]
    ensures r[name].participants.Some?
    ensures var ps, i := ParticipantsOf(acts[name]), IndexOf(ParticipantsOf(acts[name]), email);
      ParticipantsOf(r[name]) == ps[..i] + ps[i + 1..]
  {
    acts[name := Activity(Some(Remove(ParticipantsOf(acts[name]), email)))]
  }

  /** Every activity's participant list is free of duplicates. */
  ghost predicate NoDuplicateParticipants(acts: Activities) {
    forall n :: n in acts ==> NoDuplicates(ParticipantsOf(acts[n]))
  }

  /** Signing up a student who is not enrolled and then unregistering them
      gives every activity its old participant list back. The registry itself
      is restored exactly when the record had a `participants` key; when it
      had none, the record afterwards holds an explicit empty list. */
  lemma SignupThenUnregister(acts: Activities, name: string, email: Email)
    requires name in acts && email !in ParticipantsOf(acts[name])
    ensures email in ParticipantsOf(WithParticipant(acts, name, email)[name])
    ensures var after := WithoutParticipant(WithParticipant(acts, name, email), name, email);
      && after.Keys == acts.Keys
      && (forall n :: n in acts ==> ParticipantsOf(after[n]) == ParticipantsOf(acts[n]))
      && (acts[name].participants.Some? <==> after == acts)
      && (acts[name].participants.None? ==> after[name] == Activity(Some([])))
  {
  }

  /** A successful signup keeps the registry free of duplicates and leaves
      the student enrolled. */
  lemma WithParticipantKeepsNoDuplicates(acts: Activities, name: string, email: Email)
    requires NoDuplicateParticipants(acts)
    requires name in acts && email !in ParticipantsOf(acts[name])
    ensures NoDuplicateParticipants(WithParticipant(acts, name, email))
    ensures email in ParticipantsOf(WithParticipant(acts, name, email)[name])
  {
  }

  /** A successful unregister keeps the registry free of duplicates and
      leaves the student no longer enrolled. */
  lemma WithoutParticipantKeepsNoDuplicates(acts: Activities, name: string, email: Email)
    requires NoDuplicateParticipants(acts)
    requires name in acts && email in ParticipantsOf(acts[name])
    ensures NoDuplicateParticipants(WithoutParticipant(acts, name, email))
    ensures email !in ParticipantsOf(WithoutParticipant(acts, name, email)[name])
  {
  }
}
