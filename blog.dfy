/** Record shapes shared by the index builder and the client (`src/types/blog.ts`). */
module Blog {

  /**
   * One post of the index. `date` is the post's timestamp (milliseconds since the epoch);
   * the ISO text the JSON artifact carries is not modelled.
   */
  datatype PostMeta = PostMeta(
    slug: string,
    title: string,
    date: int,
    tags: seq<string>,
    excerpt: string,
    content: string,
    readingTime: int,
    filePath: string)

  /** The generated artifact: the posts in display order and when the index was generated. */
  datatype PostsIndex = PostsIndex(posts: seq<PostMeta>, lastGenerated: int)

  /** One row of the tag-frequency table. */
  datatype TagFrequency = TagFrequency(tag: string, count: int)
}
