/** The records of an Apple Device Support Training catalog and of its search
    results. Optional JSON members are `Option`s; a member that is absent and
    one that is present matter apart only where the code tests for them. */
module TrainingTypes {
  import opened Wrappers

  datatype AbstractItem = AbstractItem(kind: string, text: string)

  /** An entry of the catalog's `references` object. Tutorials carry `kind`;
      image references do not, and for them only `type` is meaningful. */
  datatype Reference = Reference(
    refType: string,
    kind: Option<string>,
    identifier: string,
    url: string,
    title: string,
    summary: seq<AbstractItem>,
    estimatedTime: Option<string>)

  datatype Chapter = Chapter(name: string, tutorials: seq<string>)

  /** A top-level section of the catalog: the hero or a volume. */
  datatype Section = Section(kind: string, name: Option<string>, chapters: Option<seq<Chapter>>)

  /** The catalog; `references` lists the object's entries in their order. */
  datatype Catalog = Catalog(
    title: string,
    estimatedTime: Option<string>,
    sections: seq<Section>,
    references: seq<(string, Reference)>)

  datatype SearchResult = SearchResult(
    tutorialId: string,
    title: string,
    summary: string,
    estimatedTime: Option<string>,
    url: string,
    kind: string,
    volume: Option<string>,
    chapter: Option<string>)

  datatype CatalogType = AptSupport | AptDeployment

  datatype Platform = IPhone | IPad | Mac | AllPlatforms
}
