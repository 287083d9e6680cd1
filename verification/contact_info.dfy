/**
 * The contact box of a professional's page: it asks the backend function
 * `get_professional_contact` for the contact row, then offers WhatsApp,
 * phone and e-mail actions for the fields that are filled, or a notice that
 * there is no public contact.
 */
module ContactBox {
  import opened Wrappers
  import Text
  import ProfessionalCard

  /** A row returned by `get_professional_contact`. */
  datatype Contact = Contact(id: string, email: Option<string>, phone: Option<string>, whatsapp: Option<string>)

  const NotFound := "Informações de contato não encontradas"

  class ContactInfo {
    var contactInfo: Option<Contact>
    var loading: bool
    var error: Option<string>

    constructor ()
      ensures contactInfo == None && loading && error == None
    {
      contactInfo := None;
      loading := true;
      error := None;
    }

    /**
     * `fetchContactInfo`: the first returned row becomes the contact; an
     * empty result or an error sets the error message and keeps the previous
     * contact.  Loading ends in every case.
     */
    method FetchContactInfo(rows: seq<Contact>, reply: Reply)
      modifies this
      ensures reply.Ok? && rows != [] ==> contactInfo == Some(rows[0]) && error == old(error)
      ensures reply.Ok? && rows == [] ==> contactInfo == old(contactInfo) && error == Some(NotFound)
      ensures reply.Fail? ==> contactInfo == old(contactInfo) && error == Some(reply.message)
      ensures !loading
    {
      if reply.Fail? {
        error := Some(reply.message);
      } else if |rows| > 0 {
        contactInfo := Some(rows[0]);
      } else {
        error := Some(NotFound);
      }
      loading := false;
    }

    /** The error view shows when there is an error or no contact. */
    predicate ShowsError()
      reads this
    {
      !loading && (error.Some? || contactInfo.None?)
    }
  }

  /** `handleWhatsAppClick`: nothing without a number; otherwise the digits-only link. */
  function WhatsAppAction(c: Contact, encodedMessage: string): (url: Option<string>)
    ensures url.Some? <==> Filled(c.whatsapp)
    ensures url.Some? ==> Text.StartsWith(url.value, ProfessionalCard.WhatsAppUrl(c.whatsapp.value) + "?text=")
  {
    if Filled(c.whatsapp)
    then Some(ProfessionalCard.WhatsAppUrl(c.whatsapp.value) + "?text=" + encodedMessage)
    else None
  }

  /** `handlePhoneClick`: nothing without a phone number. */
  function PhoneAction(c: Contact): (url: Option<string>)
    ensures url.Some? <==> Filled(c.phone)
    ensures url.Some? ==> url.value == "tel:" + c.phone.value
  {
    if Filled(c.phone) then Some("tel:" + c.phone.value) else None
  }

  /** The `mailto:` link both e-mail buttons open: none unless the address is filled. */
  function MailtoLink(email: Option<string>): (url: Option<string>)
    ensures url.Some? <==> Filled(email)
    ensures url.Some? ==> url.value == "mailto:" + email.value
  {
    if Filled(email) then Some("mailto:" + email.value) else None
  }

  /** `handleEmailClick`: nothing without an address. */
  function EmailAction(c: Contact): (url: Option<string>)
    ensures url.Some? <==> Filled(c.email)
    ensures url.Some? ==> url.value == "mailto:" + c.email.value
  {
    MailtoLink(c.email)
  }

  /** The "no public contact" notice: WhatsApp, phone and e-mail all empty. */
  predicate NoPublicContact(c: Contact)
  {
    !Filled(c.whatsapp) && !Filled(c.phone) && !Filled(c.email)
  }

  /** The notice shows exactly when no action would do anything. */
  lemma NoticeIffNoAction(c: Contact, encodedMessage: string)
    ensures NoPublicContact(c) <==> WhatsAppAction(c, encodedMessage).None? && PhoneAction(c).None? && EmailAction(c).None?
  {
  }
}
