/** The label taxonomy and the rule chain of `Segment.getLabel`, `Segment.getDescription`. */
module Classifier {
  import opened Wrappers
  import opened JsText
  import opened Dom

  /** The `LABELS` table passed into the page. It has no entry for "LIST". */
  const LABELS: map<string, int> := map[
    "TEXT" := 0, "CODE" := 1, "LINK" := 2, "IMAGE" := 3, "VIDEO" := 4, "AUDIO" := 5,
    "BUTTON" := 6, "INPUT" := 7, "FORM" := 8, "QUOTE" := 9, "CUSTOM" := 10, "ICON" := 11,
    "HEADER" := 12, "SUBMIT" := 13, "FOOTER" := 14, "NAV" := 15]

  /** The JavaScript value a segment's label holds: a code from `LABELS`, `undefined`
      (a property `LABELS` lacks), or the raw tag name the fallback returns. */
  datatype LabelValue = Num(code: int) | Undefined | Str(name: string)

  /** `LABELS[name]` */
  function LabelOf(name: string): (v: LabelValue)
    ensures v.Num? <==> name in LABELS
    ensures v.Num? ==> 0 <= v.code <= 15
  {
    if name in LABELS then Num(LABELS[name]) else Undefined
  }

  /** Area threshold separating IMAGE from ICON for `<svg>` elements. */
  const MinImageArea: int := 800

  const HeadingTags: seq<string> := ["H1", "H2", "H3", "H4", "H5", "H6"]
  const ImageFileTypes: seq<string> := ["jpg", "png", "gif", "jpeg", "webp"]
  const FallbackTags: seq<string> := ["VIDEO", "AUDIO", "FORM", "NAV", "FOOTER"]

  /** The `data` record `getLabel` builds before running the chain. */
  datatype Data = Data(tagName: string, parentTagName: string, classlist: seq<string>,
                       hasText: bool, el: Elem)

  function MakeData(el: Elem): (d: Data)
    ensures d.el == el && d.classlist == el.classList
    ensures d.tagName == Upper(el.tagName) && d.parentTagName == Upper(el.parentTagName)
    ensures d.hasText == HasText(el.textContent)
  {
    Data(Upper(el.tagName), Upper(el.parentTagName), el.classList, HasText(el.textContent), el)
  }

  function Area(b: BBox): int {
    b.height * b.width
  }

  predicate IsHeader(d: Data) {
    (d.hasText && d.tagName in HeadingTags) || (d.hasText && d.parentTagName in HeadingTags)
  }

  predicate IsCode(d: Data) {
    d.tagName == "PRE" || d.tagName == "CODE"
  }

  predicate IsQuote(d: Data) {
    d.tagName == "BLOCKQUOTE"
  }

  predicate IsList(d: Data) {
    d.tagName == "TABLE" || d.tagName == "UL" || d.tagName == "OL" || d.tagName == "DL"
  }

  predicate HasButtonClass(d: Data) {
    "btn" in d.classlist || "button" in d.classlist
  }

  predicate IsButton(d: Data) {
    d.tagName == "BUTTON" ||
    GetAttribute(d.el, "role") == Some("button") ||
    (d.tagName == "INPUT" && GetAttribute(d.el, "type") == Some("button")) ||
    (d.tagName == "A" && HasButtonClass(d)) ||
    d.el.clickListeners
  }

  predicate IsLink(d: Data) {
    (d.tagName == "A" && !HasButtonClass(d)) ||
    (d.parentTagName == "A" && d.tagName in ["P", "SPAN", "ABBR", "ADDRESS"]) ||
    d.tagName == "CITE"
  }

  predicate IsInput(d: Data) {
    d.tagName in ["INPUT", "SELECT", "OPTION", "TEXTAREA"]
  }

  predicate IsText(d: Data) {
    d.hasText && d.tagName in ["P", "SPAN", "ABBR", "LABEL", "DIV", "LI"]
  }

  /** `getComputedStyle(el).backgroundImage.slice(0, 3) == 'url'` */
  predicate IsBackgroundImage(e: Elem) {
    Slice(e.style.backgroundImage, 0, 3) == "url"
  }

  /** The file type of a background image: the text between `url(` and `)` with
      double quotes removed, after its last '.'. */
  function BackgroundFileType(e: Elem): string {
    AfterLastDot(RemoveQuotes(Slice(e.style.backgroundImage, 4, -1)))
  }

  predicate IsImage(d: Data) {
    d.tagName == "IMG" || (d.tagName == "SVG" && Area(d.el.rect) > MinImageArea) ||
    (IsBackgroundImage(d.el) && BackgroundFileType(d.el) in ImageFileTypes)
  }

  predicate IsIcon(d: Data) {
    d.tagName == "KBD" || (d.tagName == "SVG" && Area(d.el.rect) < MinImageArea) ||
    (IsBackgroundImage(d.el) &&
     (BackgroundFileType(d.el) == "svg" || StartsWith(BackgroundFileType(d.el), "data")))
  }

  predicate IsCustom(d: Data) {
    d.el.customElement
  }

  /** `Segment.getLabel(el)`: the first rule that matches decides. */
  function GetLabel(el: Elem): LabelValue {
    Chain(MakeData(el))
  }

  function Chain(d: Data): LabelValue {
    if IsHeader(d) then LabelOf("HEADER")
    else if IsCode(d) then LabelOf("CODE")
    else if IsQuote(d) then LabelOf("QUOTE")
    else if IsList(d) then LabelOf("LIST")
    else if IsButton(d) then LabelOf("BUTTON")
    else if IsLink(d) then LabelOf("LINK")
    else if IsInput(d) then LabelOf("INPUT")
    else if IsText(d) then LabelOf("TEXT")
    else if IsImage(d) then LabelOf("IMAGE")
    else if IsIcon(d) then LabelOf("ICON")
    else if IsCustom(d) then LabelOf("CUSTOM")
    else if d.tagName in FallbackTags then LabelOf(d.tagName)
    else Str(d.tagName)
  }

  // ---------------------------------------------------------------------------
  // An independent, table-driven statement of the chain.

  datatype Rule = Header | Code | Quote | List | Button | Link | Input | TextRule
                | Image | Icon | Custom

  /** The rules in the order the chain tries them. */
  const RuleOrder: seq<Rule> :=
    [Header, Code, Quote, List, Button, Link, Input, TextRule, Image, Icon, Custom]

  predicate Holds(r: Rule, d: Data) {
    match r
    case Header => IsHeader(d)
    case Code => IsCode(d)
    case Quote => IsQuote(d)
    case List => IsList(d)
    case Button => IsButton(d)
    case Link => IsLink(d)
    case Input => IsInput(d)
    case TextRule => IsText(d)
    case Image => IsImage(d)
    case Icon => IsIcon(d)
    case Custom => IsCustom(d)
  }

  /** The `LABELS` key each rule returns. */
  function RuleKey(r: Rule): string {
    match r
    case Header => "HEADER"
    case Code => "CODE"
    case Quote => "QUOTE"
    case List => "LIST"
    case Button => "BUTTON"
    case Link => "LINK"
    case Input => "INPUT"
    case TextRule => "TEXT"
    case Image => "IMAGE"
    case Icon => "ICON"
    case Custom => "CUSTOM"
  }

  /** The label when no rule of the chain matches. */
  function Fallback(d: Data): LabelValue {
    if d.tagName in FallbackTags then LabelOf(d.tagName) else Str(d.tagName)
  }

  /** First-match-wins: when rule i matches and no earlier rule does, the label is rule i's. */
  lemma FirstMatchingRuleWins(el: Elem, i: nat)
    requires i < |RuleOrder|
    requires Holds(RuleOrder[i], MakeData(el))
    requires forall j :: 0 <= j < i ==> !Holds(RuleOrder[j], MakeData(el))
    ensures GetLabel(el) == LabelOf(RuleKey(RuleOrder[i]))
  {
    ChainFirstMatch(MakeData(el), i);
  }

  lemma ChainFirstMatch(d: Data, i: nat)
    requires i < |RuleOrder|
    requires Holds(RuleOrder[i], d)
    requires forall j :: 0 <= j < i ==> !Holds(RuleOrder[j], d)
    ensures Chain(d) == LabelOf(RuleKey(RuleOrder[i]))
  {
    EarlierRulesFail(d, i);
  }

  /** The rules before position i, spelled out. */
  lemma EarlierRulesFail(d: Data, i: nat)
    requires i <= |RuleOrder|
    requires forall j :: 0 <= j < i ==> !Holds(RuleOrder[j], d)
    ensures i > 0 ==> !IsHeader(d)
    ensures i > 1 ==> !IsCode(d)
    ensures i > 2 ==> !IsQuote(d)
    ensures i > 3 ==> !IsList(d)
    ensures i > 4 ==> !IsButton(d)
    ensures i > 5 ==> !IsLink(d)
    ensures i > 6 ==> !IsInput(d)
    ensures i > 7 ==> !IsText(d)
    ensures i > 8 ==> !IsImage(d)
    ensures i > 9 ==> !IsIcon(d)
    ensures i > 10 ==> !IsCustom(d)
  {
    for k := 0 to i
      invariant k > 0 ==> !IsHeader(d)
      invariant k > 1 ==> !IsCode(d)
      invariant k > 2 ==> !IsQuote(d)
      invariant k > 3 ==> !IsList(d)
      invariant k > 4 ==> !IsButton(d)
      invariant k > 5 ==> !IsLink(d)
      invariant k > 6 ==> !IsInput(d)
      invariant k > 7 ==> !IsText(d)
      invariant k > 8 ==> !IsImage(d)
      invariant k > 9 ==> !IsIcon(d)
      invariant k > 10 ==> !IsCustom(d)
    {
      RuleFails(d, k);
    }
  }

  /** A rule that does not hold, named. */
  lemma RuleFails(d: Data, k: nat)
    requires k < |RuleOrder| && !Holds(RuleOrder[k], d)
    ensures k == 0 ==> !IsHeader(d)
    ensures k == 1 ==> !IsCode(d)
    ensures k == 2 ==> !IsQuote(d)
    ensures k == 3 ==> !IsList(d)
    ensures k == 4 ==> !IsButton(d)
    ensures k == 5 ==> !IsLink(d)
    ensures k == 6 ==> !IsInput(d)
    ensures k == 7 ==> !IsText(d)
    ensures k == 8 ==> !IsImage(d)
    ensures k == 9 ==> !IsIcon(d)
    ensures k == 10 ==> !IsCustom(d)
  {
    var r := RuleOrder[k];
    assert r == [Header, Code, Quote, List, Button, Link, Input, TextRule, Image, Icon, Custom][k];
    if k == 0 { assert r == Header; }
    else if k == 1 { assert r == Code; }
    else if k == 2 { assert r == Quote; }
    else if k == 3 { assert r == List; }
    else if k == 4 { assert r == Button; }
    else if k == 5 { assert r == Link; }
    else if k == 6 { assert r == Input; }
    else if k == 7 { assert r == TextRule; }
    else if k == 8 { assert r == Image; }
    else if k == 9 { assert r == Icon; }
    else { assert r == Custom; }
  }

  /** When no rule matches, the tag-name fallback decides. */
  lemma NoRuleFallsBack(el: Elem)
    requires forall j :: 0 <= j < |RuleOrder| ==> !Holds(RuleOrder[j], MakeData(el))
    ensures GetLabel(el) == Fallback(MakeData(el))
  {
    EarlierRulesFail(MakeData(el), |RuleOrder|);
  }

  /** What values a label can take: a code in 0..15, `undefined` exactly when the LIST
      rule is the first to match, or the upper-cased tag exactly when nothing matches
      and the tag is not one of the fallback tags. */
  lemma LabelValues(el: Elem)
    ensures GetLabel(el).Num? ==> 0 <= GetLabel(el).code <= 15
    ensures GetLabel(el) == Undefined <==>
      (var d := MakeData(el); !IsHeader(d) && !IsCode(d) && !IsQuote(d) && IsList(d))
    ensures GetLabel(el).Str? <==>
      (var d := MakeData(el);
       (forall j :: 0 <= j < |RuleOrder| ==> !Holds(RuleOrder[j], d)) && d.tagName !in FallbackTags)
    ensures GetLabel(el).Str? ==> GetLabel(el).name == Upper(el.tagName)
  {
    var d := MakeData(el);
    assert "LIST" !in LABELS;
    forall t | t in FallbackTags ensures t in LABELS { }
    if forall j :: 0 <= j < |RuleOrder| ==> !Holds(RuleOrder[j], d) {
      NoRuleFallsBack(el);
    } else {
      var i :| 0 <= i < |RuleOrder| && Holds(RuleOrder[i], d);
      assert Holds(RuleOrder[i], d);
      assert !GetLabel(el).Str?;
    }
  }

  // Worked cases of the precedence.

  /** An `<a class="btn">` is a BUTTON, never a LINK, whatever its text or parent. */
  lemma AnchorWithButtonClassIsButton(el: Elem)
    requires Upper(el.tagName) == "A" && "btn" in el.classList
    requires !(HasText(el.textContent) && Upper(el.parentTagName) in HeadingTags)
    ensures GetLabel(el) == Num(6)
  {
  }

  /** A `<code>` with text inside an `<h2>` is a HEADER: the heading rule comes first. */
  lemma CodeInHeadingIsHeader(el: Elem)
    requires Upper(el.tagName) == "CODE" && Upper(el.parentTagName) == "H2"
    requires HasText(el.textContent)
    ensures GetLabel(el) == Num(12)
  {
  }

  /** A `<ul>` matches the LIST rule, whose key is missing from `LABELS`. */
  lemma ListIsUndefined(el: Elem)
    requires Upper(el.tagName) == "UL" && !(HasText(el.textContent) && Upper(el.parentTagName) in HeadingTags)
    ensures GetLabel(el) == Undefined
  {
    assert "LIST" !in LABELS;
  }

  /** The `<svg>` size threshold: above 800 square pixels IMAGE, below it ICON, and at
      exactly 800 neither size test applies and the background image, the custom element
      registry and finally the raw tag name decide. */
  lemma SvgSizeThreshold(el: Elem)
    requires Upper(el.tagName) == "SVG"
    requires !IsHeader(MakeData(el)) && !IsButton(MakeData(el))
    ensures Area(el.rect) > MinImageArea ==> GetLabel(el) == Num(3)
    ensures Area(el.rect) < MinImageArea ==>
      GetLabel(el) == if IsBackgroundImage(el) && BackgroundFileType(el) in ImageFileTypes
                      then Num(3) else Num(11)
    ensures Area(el.rect) == MinImageArea ==>
      GetLabel(el) ==
        if IsBackgroundImage(el) && BackgroundFileType(el) in ImageFileTypes then Num(3)
        else if IsBackgroundImage(el) &&
                (BackgroundFileType(el) == "svg" || StartsWith(BackgroundFileType(el), "data")) then Num(11)
        else if el.customElement then Num(10)
        else Str("SVG")
  {
    var d := MakeData(el);
    assert !IsCode(d) && !IsQuote(d) && !IsList(d) && !IsLink(d) && !IsInput(d) && !IsText(d);
    assert "SVG" !in FallbackTags;
  }

  /** t, wrapped in double quotes when q holds. */
  function Quoted(q: bool, t: string): string {
    if q then "\"" + t + "\"" else t
  }

  /** `bg.slice(4, -1)` of `url(inner)` is inner, and the url test holds. */
  lemma UrlInner(inner: string)
    ensures var bg := "url(" + inner + ")";
            Slice(bg, 0, 3) == "url" && Slice(bg, 4, -1) == inner
  {
    var bg := "url(" + inner + ")";
    assert bg[..3] == "url";
    SliceInner(bg);
    assert bg[4..|bg| - 1] == inner;
  }

  lemma UnquoteQuoted(q: bool, t: string)
    requires '"' !in t
    ensures RemoveQuotes(Quoted(q, t)) == t
  {
    RemoveQuotesNoQuote(t);
    if q {
      RemoveQuotesAppend("\"" + t, "\"");
      RemoveQuotesAppend("\"", t);
    }
  }

  /** `url(name.ext)`, quoted or not, has file type `ext` when `ext` has no '.'
      and neither part has a double quote: `url("a/b.png")` gives "png" (IMAGE),
      `url(i.svg)` gives "svg" (ICON). */
  lemma BackgroundUrlFileType(e: Elem, name: string, ext: string, quoted: bool)
    requires '.' !in ext && '"' !in name && '"' !in ext
    requires e.style.backgroundImage == "url(" + Quoted(quoted, name + "." + ext) + ")"
    ensures IsBackgroundImage(e) && BackgroundFileType(e) == ext
  {
    var body := name + "." + ext;
    UrlInner(Quoted(quoted, body));
    UnquoteQuoted(quoted, body);
    AfterLastDotOfDotted(name, ext);
  }

  /** The background file type is what follows the last '.' of the unquoted url text, or
      all of it when it has no '.'. */
  lemma BackgroundFileTypeIsExtension(e: Elem)
    ensures var u := RemoveQuotes(Slice(e.style.backgroundImage, 4, -1));
            var t := BackgroundFileType(e);
            '.' !in t && t == u[|u| - |t|..] &&
            ('.' !in u ==> t == u) &&
            ('.' in u ==> |t| < |u| && u[|u| - |t| - 1] == '.')
  {
    AfterLastDotSplits(RemoveQuotes(Slice(e.style.backgroundImage, 4, -1)));
  }

  // ---------------------------------------------------------------------------
  // `Segment.getDescription(el)`

  /** A JavaScript truthiness test on an attribute value: present and non-empty. */
  predicate Truthy(v: Option<string>) {
    v.Some? && v.value != ""
  }

  function GetDescription(el: Elem): (r: string)
    ensures r != "" <==> Truthy(GetAttribute(el, "aria-label")) ||
                         Truthy(GetAttribute(el, "alt")) || Truthy(GetAttribute(el, "role"))
  {
    if Truthy(GetAttribute(el, "aria-label")) then GetAttribute(el, "aria-label").value
    else if Truthy(GetAttribute(el, "alt")) then GetAttribute(el, "alt").value
    else if Truthy(GetAttribute(el, "role")) then GetAttribute(el, "role").value
    else ""
  }

  /** Reference definition: the value of the first truthy entry, else "". */
  function FirstTruthy(vs: seq<Option<string>>): string {
    if vs == [] then "" else if Truthy(vs[0]) then vs[0].value else FirstTruthy(vs[1..])
  }

  lemma {:induction false} FirstTruthyIsFirst(vs: seq<Option<string>>, i: nat)
    requires i < |vs| && Truthy(vs[i])
    requires forall j :: 0 <= j < i ==> !Truthy(vs[j])
    ensures FirstTruthy(vs) == vs[i].value
  {
    if i > 0 {
      FirstTruthyIsFirst(vs[1..], i - 1);
    }
  }

  const DescriptionAttributes: seq<string> := ["aria-label", "alt", "role"]

  /** The description is the first of `aria-label`, `alt`, `role` that is non-empty. */
  lemma DescriptionPriority(el: Elem, i: nat)
    requires i < |DescriptionAttributes|
    requires Truthy(GetAttribute(el, DescriptionAttributes[i]))
    requires forall j :: 0 <= j < i ==> !Truthy(GetAttribute(el, DescriptionAttributes[j]))
    ensures GetDescription(el) == GetAttribute(el, DescriptionAttributes[i]).value
  {
    var vs := seq(3, k requires 0 <= k < 3 => GetAttribute(el, DescriptionAttributes[k]));
    FirstTruthyIsFirst(vs, i);
    assert GetDescription(el) == FirstTruthy(vs);
  }

  /** `alt="x"` and `role="y"` without `aria-label` give "x"; an empty `alt` is skipped. */
  lemma DescriptionExamples(el: Elem)
    ensures el.attributes == map["alt" := "x", "role" := "y"] ==> GetDescription(el) == "x"
    ensures el.attributes == map["aria-label" := "", "alt" := "", "role" := "y"] ==>
              GetDescription(el) == "y"
  {
  }
}
