/**
 * `src/App.tsx`: the resume held by the application and its snapshot in
 * local storage. On start the snapshot is parsed and validated, falling back
 * to the default resume on any failure; after every change (and once on
 * start) the current resume is written back as JSON. `JSON.parse` and
 * `JSON.stringify` are parameters.
 */
module App {
  import opened Wrappers
  import opened Json
  import opened Types

  /**
   * The `useState` initializer: the validated snapshot, or the default resume
   * when there is no snapshot, it is empty, it does not parse or it does not
   * validate. Nothing escapes as an error.
   */
  function Hydrate(saved: Option<string>, parse: string -> Option<Json>): (r: ResumeData)
    ensures WellTyped(r)
    ensures r == DefaultResume || (saved.Some? && parse(saved.value).Some? && Validate(parse(saved.value).value) == Ok(r))
    ensures (saved.None? || saved.value == "") ==> r == DefaultResume
    ensures saved.Some? && saved.value != "" && parse(saved.value).Some? && Validate(parse(saved.value).value).Ok?
      ==> r == Validate(parse(saved.value).value).value
  {
    DefaultResumeValidates();
    if saved.None? || saved.value == "" then DefaultResume
    else
      match parse(saved.value)
      case None => DefaultResume
      case Some(j) =>
        match Validate(j)
        case Err(_) => DefaultResume
        case Ok(d) => d
  }

  /** A snapshot that fails to parse, or parses to something the schema rejects, yields the default. */
  lemma HydrateFallsBack(saved: string, parse: string -> Option<Json>)
    requires parse(saved).None? || Validate(parse(saved).value).Err?
    ensures Hydrate(Some(saved), parse) == DefaultResume
  {
  }

  /**
   * A snapshot written for a well-typed resume hydrates back to that resume,
   * provided `JSON.parse` reads back what `JSON.stringify` wrote.
   */
  lemma HydrateAfterSave(r: ResumeData, parse: string -> Option<Json>, stringify: Json -> string)
    requires WellTyped(r)
    requires stringify(ToJson(r)) != ""
    requires parse(stringify(ToJson(r))) == Some(ToJson(r))
    ensures Hydrate(Some(stringify(ToJson(r))), parse) == r
  {
    RoundTrip(r);
  }

  /** The resume state and the local-storage entry behind it. */
  class ResumeStore {
    /** `JSON.stringify`, as the effect uses it. */
    const stringify: Json -> string
    /** The current resume. */
    var resumeData: ResumeData
    /** The local-storage entry; `None` when there is none. */
    var saved: Option<string>

    /** The entry always holds the serialisation of the current resume. */
    predicate Persisted()
      reads this
    {
      saved == Some(stringify(ToJson(resumeData)))
    }

    /** Mounting: hydrate from the entry, then the effect's first run writes the resume back. */
    constructor (saved: Option<string>, parse: string -> Option<Json>, stringify: Json -> string)
      ensures this.stringify == stringify
      ensures resumeData == Hydrate(saved, parse)
      ensures WellTyped(resumeData)
      ensures Persisted()
    {
      this.stringify := stringify;
      resumeData := Hydrate(saved, parse);
      new;
      Persist();
    }

    /** The `useEffect` body: `localStorage.setItem(key, JSON.stringify(resumeData))`. */
    method Persist()
      modifies this
      ensures resumeData == old(resumeData)
      ensures saved == Some(stringify(ToJson(resumeData)))
      ensures Persisted()
    {
      saved := Some(stringify(ToJson(resumeData)));
    }

    /** `setResumeData(r)` followed by the effect it triggers. */
    method SetResumeData(r: ResumeData)
      modifies this
      ensures resumeData == r
      ensures Persisted()
    {
      resumeData := r;
      Persist();
    }
  }
}
