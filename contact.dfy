/** The contact page: a form whose submit opens a WhatsApp link carrying the
    three fields and then clears them. */
module Contact {
  import opened Wrappers
  import opened Strings
  import PercentEncoding

  const CONTACT_URL_PREFIX := "https://wa.me/38349514788?text="

  /** The text of the WhatsApp message. */
  function ContactText(name: string, email: string, message: string): (text: string)
    ensures StartsWith(text, "Name: " + name)
    ensures Contains(text, email) && Contains(text, message)
    ensures |text| == |name| + |email| + |message| + 28
  {
    var p2 := "Name: " + name + " | Email: ";
    var p3 := p2 + email + " | Message: ";
    var text := p3 + message;
    assert text[|p2|..|p2| + |email|] == email;
    ContainsAt(text, email, |p2|);
    assert text[|p3|..|p3| + |message|] == message;
    ContainsAt(text, message, |p3|);
    text
  }

  /** The link for a text. */
  function ContactUrl(text: string): (url: string)
    ensures StartsWith(url, CONTACT_URL_PREFIX)
    ensures PercentEncoding.Decode(url[|CONTACT_URL_PREFIX|..]) == Some(text)
  {
    var url := CONTACT_URL_PREFIX + PercentEncoding.Encode(text);
    assert url[|CONTACT_URL_PREFIX|..] == PercentEncoding.Encode(text);
    PercentEncoding.DecodeEncode(text);
    url
  }

  /** The form's state; `openedLinks` records the links handed to `window.open`. */
  class ContactForm {
    var name: string
    var email: string
    var message: string
    var loading: bool
    var error: Option<string>
    var success: bool
    var openedLinks: seq<string>

    constructor ()
      ensures name == "" && email == "" && message == ""
      ensures !loading && error.None? && !success && openedLinks == []
    {
      name := "";
      email := "";
      message := "";
      loading := false;
      error := None;
      success := false;
      openedLinks := [];
    }

    /** `handleSubmit`: opens the link for the current fields, whatever
        they hold, then clears them and reports success. */
    method HandleSubmit()
      modifies this
      ensures openedLinks == old(openedLinks) + [ContactUrl(ContactText(old(name), old(email), old(message)))]
      ensures name == "" && email == "" && message == ""
      ensures success && !loading && error.None?
    {
      loading := true;
      error := None;
      success := false;
      var text := "Name: " + name + " | Email: " + email + " | Message: " + message;
      var url := CONTACT_URL_PREFIX + PercentEncoding.Encode(text);
      openedLinks := openedLinks + [url];
      success := true;
      name := "";
      email := "";
      message := "";
      loading := false;
    }
  }
}
