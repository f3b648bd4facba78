/** Phone numbers and WhatsApp JIDs as src/utils/whatsapp.js builds and
    takes them apart: a number is given the country prefix "91" when it
    lacks it, a user JID is the number followed by "@s.whatsapp.net", and a
    number is read back as the text before '@' (and before ':' for the
    device-qualified id of the logged-in account). */
module Phone {
  import opened Base

  const Prefix: string := "91"
  const Server: string := "@s.whatsapp.net"

  /** `phoneNumber.startsWith("91") ? phoneNumber : "91" + phoneNumber`. */
  function Normalise(p: string): (r: string)
    ensures StartsWith(r, Prefix)
    ensures |r| >= |p| && r[|r| - |p|..] == p
    ensures StartsWith(p, Prefix) <==> r == p
  {
    if StartsWith(p, Prefix) then p
    else
      var r := Prefix + p;
      assert r[..|Prefix|] == Prefix;
      assert r[|r| - |p|..] == p;
      r
  }

  /** Normalising twice is normalising once. */
  lemma NormaliseIdempotent(p: string)
    ensures Normalise(Normalise(p)) == Normalise(p)
  {
  }

  /** The JID `subscribe` and `getProfilePicture` address. */
  function Jid(p: string): string {
    Normalise(p) + Server
  }

  /** The JID `unsubscribe` addresses: the number as given, not normalised. */
  function RawJid(p: string): string {
    p + Server
  }

  /** `id.split("@")[0]`: the participant of a presence update. */
  function UserPart(id: string): (r: string)
    ensures '@' !in r && StartsWith(id, r)
  {
    Before(id, '@')
  }

  /** `jid.split("@")[0].split(":")[0]`: the number of the logged-in user. */
  function PhoneOfJid(jid: string): (r: string)
    ensures '@' !in r && ':' !in r
  {
    Before(Before(jid, '@'), ':')
  }

  /** Text before the first separator when the head has none. */
  lemma BeforeAfter(a: string, sep: char, b: string)
    requires sep !in a
    ensures Before(a + [sep] + b, sep) == a
  {
    SplitAfter(a, sep, b);
  }

  lemma BeforeNone(a: string, sep: char)
    requires sep !in a
    ensures Before(a, sep) == a
  {
    SplitNoSep(a, sep);
  }

  /** The user part of a user JID is the number it was built from. */
  lemma UserPartOfJid(n: string)
    requires '@' !in n
    ensures UserPart(n + Server) == n
  {
    assert n + Server == n + ['@'] + "s.whatsapp.net";
    BeforeAfter(n, '@', "s.whatsapp.net");
  }

  /** The number read from a device-qualified JID `n:d@s.whatsapp.net` is n. */
  lemma PhoneOfDeviceJid(n: string, d: string)
    requires '@' !in n && ':' !in n && '@' !in d
    ensures PhoneOfJid(n + ":" + d + Server) == n
  {
    var head := n + ":" + d;
    assert '@' !in head;
    assert n + ":" + d + Server == head + ['@'] + "s.whatsapp.net";
    BeforeAfter(head, '@', "s.whatsapp.net");
    assert head == n + [':'] + d;
    BeforeAfter(n, ':', d);
  }

  /** The number read from a plain user JID `n@s.whatsapp.net` is n. */
  lemma PhoneOfPlainJid(n: string)
    requires '@' !in n && ':' !in n
    ensures PhoneOfJid(n + Server) == n
  {
    UserPartOfJid(n);
    BeforeNone(n, ':');
  }

  /** Presence updates for a subscribed number arrive from its normalised
      JID, so their participant is the normalised number: for a number
      given without the prefix it differs from the number the
      subscription is kept under. */
  lemma ParticipantOfSubscription(p: string)
    requires '@' !in p
    ensures UserPart(Jid(p)) == Normalise(p)
    ensures UserPart(Jid(p)) == p <==> StartsWith(p, Prefix)
  {
    var r := Normalise(p);
    assert '@' !in r by {
      if !StartsWith(p, Prefix) {
        assert r == Prefix + p;
      }
    }
    UserPartOfJid(r);
  }
}
