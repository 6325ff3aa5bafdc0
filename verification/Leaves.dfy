/** Reviewer leaves, with the parts of their frontmatter the pipeline's decisions read. */
module Leaves {
  import opened Util

  /** `keywordHit` and `structuralHit` are what matching the leaf's keywords against the diff text and
      its structural signals against the project profile came to. `wikiGlobs` is what reading the
      leaf's wiki page for coverage yields: nothing when it has no activation block. */
  datatype Leaf = Leaf(id: string, path: string, fileGlobs: Option<seq<string>>,
                       keywordHit: bool, structuralHit: bool, escalationFrom: seq<string>,
                       dimensions: set<string>, wikiGlobs: Option<seq<string>>)
}
