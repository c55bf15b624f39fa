/** The contact-kind hierarchy of Procrastinator/Models/User.cs: the abstract
    User with exactly two concrete kinds, written as one tagged variant. */
module ContactUsers {
  import opened Calendar
  import opened Validation

  /** Column lengths of the two contact properties. */
  const EmailMaxLength: int := 255
  const PhoneMaxLength: int := 20

  datatype User =
    | EmailUser(id: int, createdAt: Instant, updatedAt: Instant, emailAddress: string)
    | PhoneUser(id: int, createdAt: Instant, updatedAt: Instant, phoneNumber: string)
  {
    /** The validation the kind's data annotations impose on its contact property. */
    predicate Valid() {
      match this
      case EmailUser(_, _, _, email) => Required(email) && StringLength(email, EmailMaxLength)
      case PhoneUser(_, _, _, phone) => Required(phone) && StringLength(phone, PhoneMaxLength)
    }

    /** The overridden ContactInfo property: the e-mail address of an e-mail
        user, the phone number of a phone user. */
    function ContactInfo(): (c: string)
      ensures EmailUser? ==> c == emailAddress
      ensures PhoneUser? ==> c == phoneNumber
      ensures Valid() ==> 0 < |c| <= (if EmailUser? then EmailMaxLength else PhoneMaxLength)
    {
      match this
      case EmailUser(_, _, _, email) => email
      case PhoneUser(_, _, _, phone) => phone
    }
  }
}
