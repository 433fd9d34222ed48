/** `handleBuyProduct`: the WhatsApp inquiry about a product, a message
    assembled section by section and opened as a wa.me link. */
module BuyUtils {
  import opened Wrappers
  import opened Strings
  import PercentEncoding
  import Catalog

  type Product = Catalog.Product

  const BUY_URL_PREFIX := "https://wa.me/+38349514788?text="
  const HEADER := "\U{1F6D2} *Product Inquiry*\n\n"
  const CLOSING := "\nI'm interested in purchasing this product. Please provide more information about pricing and availability."
  const BULLET := "\U{2022} "

  /** A "*Label:* value" line, present only for a truthy value. */
  function OptionalLine(heading: string, value: string): (line: string)
    ensures line == "" <==> value == ""
    ensures value != "" ==> line == heading + value + "\n"
  {
    if value != "" then heading + value + "\n" else ""
  }

  /** `features.map(feature => `• ${feature}`)` */
  function Bullets(features: seq<string>): (r: seq<string>)
    ensures |r| == |features|
    ensures forall k :: 0 <= k < |features| ==> r[k] == BULLET + features[k]
  {
    seq(|features|, k requires 0 <= k < |features| => BULLET + features[k])
  }

  /** One "• feature" line per feature, in order. */
  function BulletLines(features: seq<string>): string
    decreases |features|
  {
    if features == [] then "" else BULLET + features[0] + "\n" + BulletLines(features[1..])
  }

  /** The bullets joined with newlines and closed by one more newline are
      exactly one "• feature\n" line per feature. */
  lemma {:induction false} JoinedBullets(features: seq<string>)
    requires features != []
    ensures Join(Bullets(features), "\n") + "\n" == BulletLines(features)
    decreases |features|
  {
    var b := Bullets(features);
    if |features| > 1 {
      JoinedBullets(features[1..]);
      assert b[1..] == Bullets(features[1..]);
      assert Join(b, "\n") == b[0] + "\n" + Join(b[1..], "\n");
    } else {
      assert features[1..] == [];
    }
  }

  /** The features section: a heading and one bullet line per feature, only
      for a present, non-empty list. */
  function FeaturesSection(features: Option<seq<string>>): (section: string)
    ensures section == "" <==> features.None? || features.value == []
    ensures features.Some? && features.value != [] ==>
              section == "*Features:*\n" + BulletLines(features.value)
  {
    if features.Some? && features.value != [] then
      JoinedBullets(features.value);
      assert "*Features:*\n" + Join(Bullets(features.value), "\n") + "\n"
             == "*Features:*\n" + (Join(Bullets(features.value), "\n") + "\n");
      "*Features:*\n" + Join(Bullets(features.value), "\n") + "\n"
    else ""
  }

  /** "• key: value" and a newline. */
  function SpecLine(entry: (string, string)): string {
    BULLET + entry.0 + ": " + entry.1 + "\n"
  }

  /** The lines the `forEach` over the entries appends, in order. */
  function SpecLines(entries: seq<(string, string)>): string
    decreases |entries|
  {
    if entries == [] then "" else SpecLines(entries[..|entries| - 1]) + SpecLine(entries[|entries| - 1])
  }

  /** The specifications section: a heading and one line per entry, only for
      an object with at least one key. */
  function SpecsSection(specs: Option<seq<(string, string)>>): (section: string)
    ensures section == "" <==> specs.None? || specs.value == []
    ensures specs.Some? && specs.value != [] ==>
              section == "*Specifications:*\n" + SpecLines(specs.value)
  {
    if specs.Some? && specs.value != [] then "*Specifications:*\n" + SpecLines(specs.value) else ""
  }

  /** The opening of every inquiry: the heading and the product line. */
  function Opening(p: Product): string {
    HEADER + "*Product:* " + p.title + "\n"
  }

  /** The whole inquiry: the opening, the category, subtitle and
      description lines for truthy fields in that order, the features and
      specifications sections, and the closing sentence. */
  function BuyMessage(p: Product): (message: string)
    ensures StartsWith(message, Opening(p))
    ensures EndsWith(message, CLOSING)
  {
    var opening := Opening(p);
    var category := OptionalLine("*Category:* ", p.category.GetOr(""));
    var subtitle := OptionalLine("*Subtitle:* ", p.subtitle);
    var description := OptionalLine("*Description:* ", p.description);
    var features := FeaturesSection(p.features);
    var specs := SpecsSection(p.specifications);
    assert StartsWith(opening, opening);
    StartsWithAppend(opening, opening, category);
    StartsWithAppend(opening + category, opening, subtitle);
    StartsWithAppend(opening + category + subtitle, opening, description);
    StartsWithAppend(opening + category + subtitle + description, opening, features);
    StartsWithAppend(opening + category + subtitle + description + features, opening, specs);
    StartsWithAppend(opening + category + subtitle + description + features + specs, opening, CLOSING);
    EndsWithAppended(opening + category + subtitle + description + features + specs, CLOSING);
    opening + category + subtitle + description + features + specs + CLOSING
  }

  /** An `if (field) message += ...` block. */
  method AppendLine(message: string, heading: string, value: string) returns (r: string)
    ensures r == message + OptionalLine(heading, value)
  {
    r := message;
    if value != "" {
      r := r + (heading + value + "\n");
    } else {
      assert r + [] == r;
    }
  }

  /** The features block: the heading and the bullets joined by newlines. */
  method AppendFeatures(message: string, features: Option<seq<string>>) returns (r: string)
    ensures r == message + FeaturesSection(features)
  {
    r := message;
    if features.Some? && features.value != [] {
      r := r + ("*Features:*\n" + Join(Bullets(features.value), "\n") + "\n");
    } else {
      assert r + [] == r;
    }
  }

  /** The specifications block: the heading, then the `forEach` over the
      entries appending one line per entry, in iteration order. */
  method AppendSpecs(message: string, specs: Option<seq<(string, string)>>) returns (r: string)
    ensures r == message + SpecsSection(specs)
  {
    r := message;
    if specs.Some? && specs.value != [] {
      var entries := specs.value;
      r := r + "*Specifications:*\n";
      ghost var before := r;
      var i := 0;
      while i < |entries|
        invariant 0 <= i <= |entries|
        invariant r == before + SpecLines(entries[..i])
      {
        assert entries[..i + 1][..i] == entries[..i];
        r := r + SpecLine(entries[i]);
        i := i + 1;
      }
      assert entries[..|entries|] == entries;
      assert message + "*Specifications:*\n" + SpecLines(entries) == message + ("*Specifications:*\n" + SpecLines(entries));
    } else {
      assert r + [] == r;
    }
  }

  /** Builds the inquiry block by block as the source does and gives back
      the URL it opens. */
  method HandleBuyProduct(p: Product) returns (url: string)
    ensures url == BUY_URL_PREFIX + PercentEncoding.Encode(BuyMessage(p))
  {
    var message := HEADER;
    message := message + ("*Product:* " + p.title + "\n");
    assert message == Opening(p);
    message := AppendLine(message, "*Category:* ", p.category.GetOr(""));
    message := AppendLine(message, "*Subtitle:* ", p.subtitle);
    message := AppendLine(message, "*Description:* ", p.description);
    message := AppendFeatures(message, p.features);
    message := AppendSpecs(message, p.specifications);
    message := message + CLOSING;
    url := BUY_URL_PREFIX + PercentEncoding.Encode(message);
  }

  /** The link's query decodes back to the inquiry. */
  lemma BuyLinkDecodes(p: Product, url: string)
    requires url == BUY_URL_PREFIX + PercentEncoding.Encode(BuyMessage(p))
    ensures StartsWith(url, BUY_URL_PREFIX)
    ensures PercentEncoding.Decode(url[|BUY_URL_PREFIX|..]) == Some(BuyMessage(p))
  {
    assert url[|BUY_URL_PREFIX|..] == PercentEncoding.Encode(BuyMessage(p));
    PercentEncoding.DecodeEncode(BuyMessage(p));
  }
}
