/**
 * The professional card of the public list, and the helpers the profile
 * page and the contact box share with it: the avatar initials, the WhatsApp
 * link (the digits of the number only) and the specialty badge.
 */
module ProfessionalCard {
  import opened Wrappers
  import Seqs
  import Text

  /** `word[0]` joined into a string: the first character, or nothing for an empty word. */
  function WordHead(word: string): string
  {
    if word == "" then "" else [word[0]]
  }

  /** `.map(word => word[0]).join("")`. */
  function Heads(words: seq<string>): string
  {
    if words == [] then "" else WordHead(words[0]) + Heads(words[1..])
  }

  predicate NonEmpty(word: string)
  {
    word != ""
  }

  /**
   * The joined heads are the first characters of the non-empty words, one
   * each and in order: empty words (from repeated spaces) add nothing.
   */
  lemma {:induction false} HeadsAreFirstLetters(words: seq<string>)
    ensures var kept := Seqs.Filter(words, NonEmpty);
      && |Heads(words)| == |kept|
      && forall k :: 0 <= k < |kept| ==> kept[k] != "" && Heads(words)[k] == kept[k][0]
  {
    var kept := Seqs.Filter(words, NonEmpty);
    forall k | 0 <= k < |kept| ensures kept[k] != "" {
      assert kept[k] in kept;
    }
    if words != [] {
      HeadsAreFirstLetters(words[1..]);
      assert kept == (if NonEmpty(words[0]) then [words[0]] else []) + Seqs.Filter(words[1..], NonEmpty);
    }
  }

  /** `getInitials`: the upper-cased heads of the space-separated words, cut to two characters. */
  function Initials(name: string): (r: string)
    ensures |r| <= 2
  {
    var u := Text.Upper(Heads(Text.Split(name, " ")));
    u[..if |u| < 2 then |u| else 2]
  }

  /** For a name of two words, the initials are the upper case of their first letters. */
  lemma InitialsOfTwoWords(first: string, last: string)
    requires first != "" && last != "" && ' ' !in first && ' ' !in last
    ensures Initials(first + " " + last) == (Text.UpperChar(first[0]) + Text.UpperChar(last[0]))[..2]
  {
    Text.SplitAtFirst(first, ' ', last);
    Text.SplitWhole(last, ' ');
    assert first + " " + last == first + [' '] + last;
    var words := [first, last];
    assert Heads(words) == [first[0]] + [last[0]] by {
      assert words[1..] == [last];
      assert Heads([last]) == [last[0]] + Heads([]);
    }
    assert [first[0]] + [last[0]] == [first[0], last[0]];
    Text.UpperAppend([first[0]], [last[0]]);
    assert Text.Upper([first[0]]) == Text.UpperChar(first[0]) + Text.Upper([]);
    assert Text.Upper([last[0]]) == Text.UpperChar(last[0]) + Text.Upper([]);
  }

  /** `https://wa.me/` followed by the digits of the number. */
  function WhatsAppUrl(number: string): (url: string)
    ensures Text.StartsWith(url, "https://wa.me/")
    ensures url[|"https://wa.me/"|..] == Text.Digits(number)
  {
    "https://wa.me/" + Text.Digits(number)
  }

  /** Formatting does not change the link: punctuation and spaces around the digits are ignored. */
  lemma WhatsAppUrlIgnoresFormatting(a: string, b: string)
    requires Text.Digits(a) == Text.Digits(b)
    ensures WhatsAppUrl(a) == WhatsAppUrl(b)
    ensures WhatsAppUrl(Text.Digits(a)) == WhatsAppUrl(a)
  {
    Text.DigitsIdempotent(a);
  }

  /** The specialty badge: the specialty's name, or `"Sem especialidade"` when there is none. */
  function SpecialtyLabel(specialtyName: Option<string>): (badge: string)
    ensures badge != ""
    ensures Filled(specialtyName) ==> badge == specialtyName.value
    ensures !Filled(specialtyName) ==> badge == "Sem especialidade"
  {
    if Filled(specialtyName) then specialtyName.value else "Sem especialidade"
  }

  /** The card's WhatsApp button: shown only for a filled number, and then it opens the digits-only link. */
  function WhatsAppButton(whatsapp: Option<string>): (url: Option<string>)
    ensures url.Some? <==> Filled(whatsapp)
    ensures url.Some? ==> url.value == WhatsAppUrl(whatsapp.value)
  {
    if Filled(whatsapp) then Some(WhatsAppUrl(whatsapp.value)) else None
  }
}
