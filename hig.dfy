/** The Human Interface Guidelines reference guards. A reference is a JSON
    object; a guard looks only at which members the object has and at its
    `type`, so a reference is modelled with its members as `Option`s, and the
    three declared shapes (image, topic, external) are ways of building one. */
module Hig {
  import opened Wrappers

  datatype ImageVariant = ImageVariant(traits: seq<string>, url: string)

  /** A reference object. `alt` is `Some(v)` when the member is present, with
      `v` `None` for a JSON `null`. */
  datatype HigRef = HigRef(
    refType: string,
    identifier: string,
    alt: Option<Option<string>>,
    variants: Option<seq<ImageVariant>>,
    kind: Option<string>,
    title: Option<string>,
    url: Option<string>)

  /** The image shape: `type` is "icon", "card" or "image". */
  predicate ImageType(t: string) {
    t == "icon" || t == "card" || t == "image"
  }

  function ImageReference(alt: Option<string>, identifier: string, t: string, variants: seq<ImageVariant>): HigRef {
    HigRef(t, identifier, Some(alt), Some(variants), None, None, None)
  }

  /** The topic shape: `type` is "topic". */
  function TopicReference(kind: string, title: string, url: string, identifier: string): HigRef {
    HigRef("topic", identifier, None, None, Some(kind), Some(title), Some(url))
  }

  /** The external shape, such as a link: a title, a url and a `type`. */
  function ExternalReference(title: string, identifier: string, url: string, t: string): HigRef {
    HigRef(t, identifier, None, None, None, Some(title), Some(url))
  }

  /** `isHIGImageReference`: the object has both `alt` and `variants`. */
  predicate IsImageReference(r: HigRef) {
    r.alt.Some? && r.variants.Some?
  }

  /** `isHIGTopicReference`: its `type` is "topic". */
  predicate IsTopicReference(r: HigRef) {
    r.refType == "topic"
  }

  /** Every image-shaped reference passes the image guard and, as its type is
      never "topic", fails the topic guard; a `null` alt still counts as
      present. */
  lemma ImageNeverTopic(alt: Option<string>, identifier: string, t: string, variants: seq<ImageVariant>)
    requires ImageType(t)
    ensures IsImageReference(ImageReference(alt, identifier, t, variants))
    ensures !IsTopicReference(ImageReference(alt, identifier, t, variants))
  {
  }

  /** Every topic-shaped reference passes the topic guard and fails the image
      guard; an external one passes the topic guard only if its type says
      "topic", and never the image guard. */
  lemma TopicShape(kind: string, title: string, url: string, identifier: string, t: string)
    ensures IsTopicReference(TopicReference(kind, title, url, identifier))
    ensures !IsImageReference(TopicReference(kind, title, url, identifier))
    ensures IsTopicReference(ExternalReference(title, identifier, url, t)) <==> t == "topic"
    ensures !IsImageReference(ExternalReference(title, identifier, url, t))
  {
  }

  datatype TocItemType = Module | Symbol | Article

  datatype HigTocItem = HigTocItem(
    children: Option<seq<HigTocItem>>,
    icon: Option<string>,
    path: string,
    title: string,
    itemType: TocItemType)

  /** `hasChildren`: `children` is present and non-empty. */
  predicate HasChildren(item: HigTocItem) {
    item.children.Some? && |item.children.value| > 0
  }

  /** The item has no children exactly when the member is missing or the
      list is empty. This is the promise of `hasChildren` itself, its own
      expression negated, and not a property derived from it. */
  lemma HasChildrenIff(item: HigTocItem)
    ensures !HasChildren(item) <==> item.children.None? || item.children.value == []
  {
  }

  // The cases of the guards' unit test.

  lemma ImageFixture()
    ensures IsImageReference(ImageReference(Some("Test image"), "test.svg", "icon", []))
    ensures !IsTopicReference(ImageReference(Some("Test image"), "test.svg", "icon", []))
  {
    ImageNeverTopic(Some("Test image"), "test.svg", "icon", []);
  }

  lemma TopicFixture()
    ensures IsTopicReference(TopicReference("article", "Test Topic", "/test", "test-id"))
    ensures !IsImageReference(TopicReference("article", "Test Topic", "/test", "test-id"))
  {
  }

  lemma ChildrenFixture()
    ensures HasChildren(HigTocItem(Some([HigTocItem(None, None, "/test", "Test", Article)]), None, "/parent", "Parent", Symbol))
    ensures !HasChildren(HigTocItem(None, None, "/single", "Single", Article))
  {
  }
}
