/**
 * The resume document: sections with a type tag and a typed payload, the
 * per-type item records, and the document state the store holds.
 */
module ResumeTypes {
  import opened Common

  /** The closed set of section types. */
  datatype SectionType = Contact | Summary | Experience | Education | Skills | Projects | Custom

  datatype ExperienceItem = ExperienceItem(
    id: string,
    company: string,
    position: string,
    startDate: string,
    endDate: string,
    current: bool,
    description: string)

  datatype EducationItem = EducationItem(
    id: string,
    institution: string,
    degree: string,
    field: string,
    startDate: string,
    endDate: string,
    current: bool,
    description: string)

  datatype SkillCategory = SkillCategory(id: string, name: string, skills: seq<string>)

  datatype ProjectItem = ProjectItem(
    id: string,
    title: string,
    link: Option<string>,
    startDate: string,
    endDate: string,
    description: string)

  /** The payload of a section; which variant is expected depends on the section type. */
  datatype Content =
    | ContactContent(
        name: string,
        email: string,
        phone: string,
        location: string,
        linkedin: Option<string>,
        website: Option<string>)
    | SummaryContent(summary: string)
    | ExperienceContent(experienceItems: seq<ExperienceItem>)
    | EducationContent(educationItems: seq<EducationItem>)
    | SkillsContent(categories: seq<SkillCategory>)
    | ProjectsContent(projectItems: seq<ProjectItem>)
    | CustomContent(text: string)

  /** The section type a payload belongs to. */
  function KindOf(c: Content): SectionType {
    match c
    case ContactContent(_, _, _, _, _, _) => Contact
    case SummaryContent(_) => Summary
    case ExperienceContent(_) => Experience
    case EducationContent(_) => Education
    case SkillsContent(_) => Skills
    case ProjectsContent(_) => Projects
    case CustomContent(_) => Custom
  }

  datatype Section = Section(id: string, kind: SectionType, title: string, content: Content, order: int)

  /** The payload has the shape the type tag announces. */
  predicate WellTyped(s: Section) {
    KindOf(s.content) == s.kind
  }

  function SectionId(s: Section): string { s.id }

  function OrderOf(s: Section): int { s.order }

  datatype Template = Modern | Professional | Creative | Simple

  datatype ResumeState = ResumeState(
    sections: seq<Section>,
    activeSection: Option<string>,
    template: Template,
    resumeName: string)

  /** `Partial<ResumeSection>`: a field is replaced only when the patch carries it. */
  datatype SectionPatch = SectionPatch(
    id: Option<string>,
    kind: Option<SectionType>,
    title: Option<string>,
    content: Option<Content>,
    order: Option<int>)

  /** The patch the forms send: only `content`. */
  function ContentPatch(c: Content): SectionPatch {
    SectionPatch(None, None, None, Some(c), None)
  }

  /** `{ ...section, ...updates }`. */
  function Merge(s: Section, p: SectionPatch): Section {
    Section(
      p.id.GetOr(s.id),
      p.kind.GetOr(s.kind),
      p.title.GetOr(s.title),
      p.content.GetOr(s.content),
      p.order.GetOr(s.order))
  }

  /** Merging the same patch twice is merging it once. */
  lemma MergeIdempotent(s: Section, p: SectionPatch)
    ensures Merge(Merge(s, p), p) == Merge(s, p)
  {
  }
}
