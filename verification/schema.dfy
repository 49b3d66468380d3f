/** The structured CV record the parser fills, and its all-empty default. */
module Schema {
  import Seqs

  /** A link of the contact block; `caption` is the source's `label` (a Dafny keyword). */
  datatype Link = Link(caption: string, url: string)

  datatype ContactInfo = ContactInfo(
    name: string,
    email: string,
    phone: string,
    location: string,
    links: seq<Link>)

  datatype Education = Education(
    institution: string,
    degree: string,
    fieldOfStudy: string,
    startDate: string,
    endDate: string,
    description: string)

  datatype Experience = Experience(
    company: string,
    position: string,
    startDate: string,
    endDate: string,
    isCurrent: bool,
    location: string,
    highlights: seq<string>)

  /** A project entry; `link` is optional. */
  datatype Project = Project(
    name: string,
    description: string,
    highlights: seq<string>,
    link: Seqs.Option<string>)

  datatype CVData = CVData(
    personalInfo: ContactInfo,
    summary: string,
    experience: seq<Experience>,
    education: seq<Education>,
    skills: seq<string>,
    projects: seq<Project>,
    certifications: seq<string>,
    languages: seq<string>)

  /** Every string of the contact block is empty and there are no links. */
  predicate EmptyContact(c: ContactInfo)
  {
    c.name == [] && c.email == [] && c.phone == [] && c.location == [] && c.links == []
  }

  /** The record with every string empty and every list empty. */
  predicate IsBlank(cv: CVData)
  {
    && EmptyContact(cv.personalInfo)
    && cv.summary == []
    && cv.experience == [] && cv.education == [] && cv.skills == []
    && cv.projects == [] && cv.certifications == [] && cv.languages == []
  }

  /** The default record every parse starts from. */
  function InitialCVData(): (cv: CVData)
    ensures IsBlank(cv)
  {
    CVData(ContactInfo("", "", "", "", []), "", [], [], [], [], [], [])
  }

  /** The blank record is unique: any record with all fields empty is the default. */
  lemma BlankIsInitial(cv: CVData)
    requires IsBlank(cv)
    ensures cv == InitialCVData()
  {
  }
}
