/**
 * The structured job record that the language-model stage returns: the
 * seniority enumeration `JOB_LEVEL` and the record `JobDescription`.
 * The model-service call that fills the record is not part of this module.
 */
module GeminiClient {

  /** The members of the `JOB_LEVEL` enumeration. */
  datatype JobLevel = Entry | Mid | Senior {

    /** The member's name as declared (`ENTRY`, `MID`, `SENIOR`). */
    function Name(): string {
      match this
      case Entry => "ENTRY"
      case Mid => "MID"
      case Senior => "SENIOR"
    }

    /** The member's value (`"Entry"`, `"Mid"`, `"Senior"`). */
    function Value(): string {
      match this
      case Entry => "Entry"
      case Mid => "Mid"
      case Senior => "Senior"
    }
  }

  /** The name of the enumeration class. */
  const EnumClassName := "JOB_LEVEL"

  /**
   * The default text form of an enumeration member, `str(level)`:
   * the class name, a dot, then the member's name.
   */
  function EnumStr(level: JobLevel): string {
    EnumClassName + "." + level.Name()
  }

  /** One structured job posting; every field is always present. */
  datatype JobDescription = JobDescription(
    jobTitle: string,
    companyName: string,
    levelOfJob: JobLevel,
    yearOfExperience: string,
    location: string,
    requiredSkills: seq<string>,
    whyJoinUs: string,
    hashtag: string)
}
