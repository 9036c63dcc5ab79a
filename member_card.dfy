/** The member card: the status shown on it and its "Next Bill Date" text. */
module MemberCardView {
  import opened Common
  import opened MemberModel
  import opened ClientMember

  /** `getMembershipStatus` at instant `now`: a falsy active flag wins, then
      an expiry strictly before `now`; an expiry that does not parse compares
      false and leaves the card 'Active'. */
  function CardStatus(c: Card, now: int): (r: string)
    ensures !c.isActive ==> r == "Inactive"
    ensures c.isActive && c.expiry.Some? ==> (r == "Expired" <==> now > c.expiry.value)
    ensures c.isActive && c.expiry.Some? ==> (r == "Active" <==> now <= c.expiry.value)
    ensures c.isActive && c.expiry.None? ==> r == "Active"
  {
    if !c.isActive then "Inactive"
    else if c.expiry.Some? && now > c.expiry.value then "Expired"
    else "Active"
  }

  function UpperChar(ch: char): (r: char)
    ensures 'a' <= ch <= 'z' ==> r as int == ch as int - 32
    ensures !('a' <= ch <= 'z') ==> r == ch
  {
    if 'a' <= ch <= 'z' then (ch as int - 32) as char else ch
  }

  /** The first letter in upper case. */
  function Capitalized(s: string): string {
    if s == [] then s else [UpperChar(s[0])] + s[1..]
  }

  /** On a card built from a stored member, the card rule and the server's
      `membershipStatus` virtual agree at every instant up to the capital
      first letter: same priority, same boundary at `expiry == now`. */
  lemma CardAgreesWithServer(m: Member, idText: string, sentAt: int, now: int)
    ensures CardStatus(CardOf(m, idText, sentAt), now) == Capitalized(StatusName(MembershipStatus(m, now)))
  {
    CapitalizedNames();
  }

  lemma CapitalizedNames()
    ensures Capitalized(StatusName(Active)) == "Active"
    ensures Capitalized(StatusName(Expired)) == "Expired"
    ensures Capitalized(StatusName(Inactive)) == "Inactive"
  {
    assert Capitalized("active") == [UpperChar('a')] + "ctive";
    assert Capitalized("expired") == [UpperChar('e')] + "xpired";
    assert Capitalized("inactive") == [UpperChar('i')] + "nactive";
  }

  /** `formatExpiryDate(member.expiry)`: 'N/A' for a missing or empty value;
      otherwise the locale rendering `render` of the parsed instant, or
      'Invalid Date' when the text does not parse. */
  function FormatExpiryDate(raw: Option<string>, parsed: Option<int>, render: int -> string): (r: string)
    ensures raw.None? || raw == Some("") ==> r == "N/A"
    ensures raw.Some? && raw.value != "" && parsed.None? ==> r == "Invalid Date"
    ensures raw.Some? && raw.value != "" && parsed.Some? ==> r == render(parsed.value)
  {
    if raw.None? || raw.value == "" then "N/A"
    else if parsed.None? then "Invalid Date"
    else render(parsed.value)
  }
}
