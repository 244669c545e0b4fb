/** The settings the modelled operations read (the rest of the settings record is not used by them). */
module Config {

  /**
   * `parentKey` names the frontmatter property holding parent links;
   * `inheritanceMode` is `'full'` (copy values) or `'structure'` (copy keys only).
   */
  datatype Settings = Settings(parentKey: string, inheritanceMode: string)

  const DefaultSettings: Settings := Settings("parent", "full")
}
