/**
 * The contact editor: six inputs over the contact payload, each change written back
 * as the whole payload with one field replaced.
 */
module ContactForm {
  import opened Common
  import opened ResumeTypes
  import opened ResumeStore

  /** The inputs of the form; `handleChange` is only called with these six names. */
  datatype ContactField = Name | Email | Phone | Location | LinkedIn | Website

  /** The stored value of a field; the four required ones are always present. */
  function FieldOf(c: Content, f: ContactField): (r: Option<string>)
    requires c.ContactContent?
    ensures f !in {LinkedIn, Website} ==> r.Some?
  {
    match f
    case Name => Some(c.name)
    case Email => Some(c.email)
    case Phone => Some(c.phone)
    case Location => Some(c.location)
    case LinkedIn => c.linkedin
    case Website => c.website
  }

  /** Two contact payloads are equal exactly when all six fields agree. */
  lemma FieldsDetermineContact(c: Content, d: Content)
    requires c.ContactContent? && d.ContactContent?
    ensures c == d <==> forall f :: FieldOf(c, f) == FieldOf(d, f)
  {
    if forall f :: FieldOf(c, f) == FieldOf(d, f) {
      assert FieldOf(c, Name) == FieldOf(d, Name) && FieldOf(c, Email) == FieldOf(d, Email);
      assert FieldOf(c, Phone) == FieldOf(d, Phone) && FieldOf(c, Location) == FieldOf(d, Location);
      assert FieldOf(c, LinkedIn) == FieldOf(d, LinkedIn) && FieldOf(c, Website) == FieldOf(d, Website);
    }
  }

  /** The text an input shows: the stored value, `''` for an absent optional field. */
  function Shown(c: Content, f: ContactField): (r: string)
    requires c.ContactContent?
    ensures FieldOf(c, f).Some? ==> r == FieldOf(c, f).value
    ensures FieldOf(c, f).None? ==> r == ""
  {
    FieldOf(c, f).GetOr("")
  }

  /** `{ ...content, [field]: value }`: one field set, the other five kept. */
  function SetField(c: Content, f: ContactField, v: string): (r: Content)
    requires c.ContactContent?
    ensures r.ContactContent?
    ensures FieldOf(r, f) == Some(v)
    ensures forall g :: g != f ==> FieldOf(r, g) == FieldOf(c, g)
  {
    match f
    case Name => c.(name := v)
    case Email => c.(email := v)
    case Phone => c.(phone := v)
    case Location => c.(location := v)
    case LinkedIn => c.(linkedin := Some(v))
    case Website => c.(website := Some(v))
  }

  /** The second write to a field wins. */
  lemma SetFieldTwice(c: Content, f: ContactField, v: string, w: string)
    requires c.ContactContent?
    ensures SetField(SetField(c, f, v), f, w) == SetField(c, f, w)
  {
    FieldsDetermineContact(SetField(SetField(c, f, v), f, w), SetField(c, f, w));
  }

  /** Writes to different fields commute. */
  lemma SetFieldsCommute(c: Content, f: ContactField, v: string, g: ContactField, w: string)
    requires c.ContactContent? && f != g
    ensures SetField(SetField(c, f, v), g, w) == SetField(SetField(c, g, w), f, v)
  {
    FieldsDetermineContact(SetField(SetField(c, f, v), g, w), SetField(SetField(c, g, w), f, v));
  }

  /**
   * Typing back what an input shows changes nothing visible; it changes the stored
   * payload only by turning an absent optional field into an empty one.
   */
  lemma RetypeShown(c: Content, f: ContactField)
    requires c.ContactContent?
    ensures forall g :: Shown(SetField(c, f, Shown(c, f)), g) == Shown(c, g)
    ensures SetField(c, f, Shown(c, f)) == c <==> FieldOf(c, f).Some?
  {
    FieldsDetermineContact(SetField(c, f, Shown(c, f)), c);
  }

  /**
   * `handleChange`: write the payload with one field replaced back to the contact
   * section; its id, type, title and order, and every other section, stay.
   */
  function HandleChange(st: ResumeState, section: Section, f: ContactField, v: string): (r: ResumeState)
    requires section.content.ContactContent?
    ensures ContentReplaced(st, r, section.id, SetField(section.content, f, v))
  {
    UpdateSection(st, section.id, ContentPatch(SetField(section.content, f, v)))
  }

  /** A contact edit keeps a consistent store consistent. */
  lemma ContactChangeKeepsConsistent(st: ResumeState, section: Section, f: ContactField, v: string)
    requires Consistent(st) && section.content.ContactContent?
    requires forall i :: 0 <= i < |st.sections| && st.sections[i].id == section.id ==> st.sections[i].kind == Contact
    ensures Consistent(HandleChange(st, section, f, v))
  {
    ReplacedKeepsConsistent(st, HandleChange(st, section, f, v), section.id, SetField(section.content, f, v));
  }
}
