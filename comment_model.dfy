/** The `comments` table (apps/models/comment.py). */
module CommentModel {
  import opened Common

  datatype Comment = Comment(
    id: string,
    content: string,
    taskId: string,
    authorId: string,
    createdAt: Option<DateTime>,
    updatedAt: Option<DateTime>)

  /** `Comment.to_dict()`: a plain copy of the columns, dates as ISO text or null. */
  function ToDict(c: Comment): (d: Body)
    ensures d.Keys == {"id", "content", "task_id", "author_id", "created_at", "updated_at"}
    ensures "author" !in d
  {
    map[
      "id" := Str(c.id),
      "content" := Str(c.content),
      "task_id" := Str(c.taskId),
      "author_id" := Str(c.authorId),
      "created_at" := IsoOrNull(c.createdAt),
      "updated_at" := IsoOrNull(c.updatedAt)]
  }
}
