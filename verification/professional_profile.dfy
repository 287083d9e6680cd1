/**
 * The professional profile page, which reads the built-in sample list: the
 * professional whose id is in the route, and the contact actions.  Its
 * initials are `ProfessionalCard.Initials` (the page repeats that definition).
 */
module ProfessionalProfile {
  import opened Wrappers
  import Seqs
  import Text
  import ProfessionalCard
  import ContactBox

  /** One entry of the sample list (only the fields the actions use). */
  datatype SampleProfessional = SampleProfessional(
    id: string, name: string, specialty: string, location: string,
    phone: string, whatsapp: string, email: Option<string>)

  function HasId(id: string): SampleProfessional -> bool
  {
    (p: SampleProfessional) => p.id == id
  }

  /**
   * `professionals.find(p => p.id === id)`: the first entry with the route's
   * id, or none (the "not found" view); a missing route id matches nothing.
   */
  function Lookup(professionals: seq<SampleProfessional>, id: Option<string>): (r: Option<SampleProfessional>)
    ensures r.Some? ==> id.Some? && r.value in professionals && r.value.id == id.value
    ensures r.None? <==> id.None? || forall p :: p in professionals ==> p.id != id.value
    ensures r.Some? ==>
      exists i :: 0 <= i < |professionals| && professionals[i] == r.value && (forall j :: 0 <= j < i ==> professionals[j].id != id.value)
  {
    if id.None? then None else Seqs.Find(professionals, HasId(id.value))
  }

  /** `handleWhatsAppClick`: the digits-only link with the (already encoded) greeting. */
  function WhatsAppLink(p: SampleProfessional, encodedMessage: string): (url: string)
    ensures Text.StartsWith(url, "https://wa.me/" + Text.Digits(p.whatsapp) + "?text=")
    ensures forall i :: |"https://wa.me/"| <= i < |"https://wa.me/"| + |Text.Digits(p.whatsapp)| ==> Text.IsDigit(url[i])
  {
    ProfessionalCard.WhatsAppUrl(p.whatsapp) + "?text=" + encodedMessage
  }

  /** `handlePhoneClick`: the number as stored, with no check. */
  function PhoneLink(p: SampleProfessional): string
  {
    "tel:" + p.phone
  }

  /** `handleEmailClick`: nothing unless the address is present. */
  function EmailLink(p: SampleProfessional): (url: Option<string>)
    ensures url.Some? <==> Filled(p.email)
    ensures url.Some? ==> url.value == "mailto:" + p.email.value
  {
    ContactBox.MailtoLink(p.email)
  }
}
