/**
 * The post table behind the bulletin board's routes: a list of post records
 * that the server loads, changes and stores back on every request. The JSON
 * file is replaced by the sequence itself and clock readings are passed in.
 */
module Posts {
  import opened Wrappers
  import Text

  /**
   * One post. `createdAt` and `updatedAt` stand for the ISO-8601 timestamps
   * the server writes; only their order matters here.
   */
  datatype Post = Post(id: int, title: string, content: string, author: string, createdAt: int, updatedAt: int)

  /** The three fields of a submitted form; None when the request lacks the field. */
  datatype Submission = Submission(title: Option<string>, content: Option<string>, author: Option<string>)

  /** What a create or edit request did to the table. */
  datatype Outcome = NotFound | Invalid | Saved(post: Post)

  /** A form field as the server reads it: missing means empty, then surrounding whitespace is stripped. */
  function Field(v: Option<string>): (r: string)
    ensures v.None? ==> r == []
    ensures r == [] <==> Text.AllSpace(v.GetOr(""), Text.PythonSpace)
  {
    Text.PyStrip(v.GetOr(""))
  }

  /**
   * The server accepts a form only when the stripped title, content and
   * author are all non-empty; in particular a form lacking one is refused.
   */
  predicate Acceptable(form: Submission)
    ensures Acceptable(form) ==> form.title.Some? && form.content.Some? && form.author.Some?
  {
    Field(form.title) != [] && Field(form.content) != [] && Field(form.author) != []
  }

  /** A field is filled when it holds at least one character that is not whitespace. */
  predicate Filled(v: Option<string>) {
    exists i | 0 <= i < |v.GetOr("")| :: v.GetOr("")[i] !in Text.PythonSpace
  }

  /** A form is accepted exactly when each of its three fields holds a non-whitespace character. */
  lemma AcceptableIffFilled(form: Submission)
    ensures Acceptable(form) <==> Filled(form.title) && Filled(form.content) && Filled(form.author)
  {
  }

  /** No two posts share an id. */
  predicate UniqueIds(posts: seq<Post>) {
    forall i, j | 0 <= i < j < |posts| :: posts[i].id != posts[j].id
  }

  predicate HasId(posts: seq<Post>, id: int) {
    exists i | 0 <= i < |posts| :: posts[i].id == id
  }

  /** The largest id in a non-empty table. */
  function MaxId(posts: seq<Post>): (m: int)
    requires posts != []
    ensures forall i | 0 <= i < |posts| :: posts[i].id <= m
    ensures HasId(posts, m)
  {
    if |posts| == 1 then posts[0].id
    else
      var rest := MaxId(posts[1..]);
      assert forall i | 1 <= i < |posts| :: posts[i] == posts[1..][i - 1];
      if posts[0].id >= rest then posts[0].id else rest
  }

  /**
   * The id the next created post receives: 1 in an empty table, otherwise one
   * more than the largest id, so larger than every id present.
   */
  function NextId(posts: seq<Post>): (r: int)
    ensures posts == [] ==> r == 1
    ensures forall i | 0 <= i < |posts| :: posts[i].id < r
    ensures posts != [] ==> HasId(posts, r - 1)
  {
    if posts == [] then 1 else MaxId(posts) + 1
  }

  /** The position of the first post with the given id, if any. */
  function FirstIndex(posts: seq<Post>, id: int): (r: Option<nat>)
    ensures r.None? <==> !HasId(posts, id)
    ensures r.Some? ==> r.value < |posts| && posts[r.value].id == id
    ensures r.Some? ==> forall j | 0 <= j < r.value :: posts[j].id != id
  {
    if posts == [] then None
    else if posts[0].id == id then Some(0)
    else
      match FirstIndex(posts[1..], id)
      case None =>
        assert forall i | 1 <= i < |posts| :: posts[i] == posts[1..][i - 1];
        None
      case Some(k) =>
        assert forall j | 1 <= j < k + 1 :: posts[j] == posts[1..][j - 1];
        Some(k + 1)
  }

  /** The table without the posts that carry the given id. */
  function Without(posts: seq<Post>, id: int): (r: seq<Post>)
    ensures |r| <= |posts|
    ensures forall p :: p in r <==> p in posts && p.id != id
  {
    if posts == [] then []
    else if posts[0].id == id then Without(posts[1..], id)
    else [posts[0]] + Without(posts[1..], id)
  }

  /** Posts ordered by non-increasing creation time. */
  predicate NewestFirstOrder(posts: seq<Post>) {
    forall i, j | 0 <= i < j < |posts| :: posts[i].createdAt >= posts[j].createdAt
  }

  /** `p` placed into an ordered table ahead of every post created at the same time or earlier. */
  function InsertByDate(p: Post, posts: seq<Post>): (r: seq<Post>)
    requires NewestFirstOrder(posts)
    ensures NewestFirstOrder(r)
    ensures |r| == |posts| + 1 && (r[0] == p || (posts != [] && r[0] == posts[0]))
  {
    if posts == [] || posts[0].createdAt <= p.createdAt then [p] + posts
    else
      var rest := InsertByDate(p, posts[1..]);
      assert rest[0].createdAt <= posts[0].createdAt;
      [posts[0]] + rest
  }

  /** Inserting adds exactly the one post. */
  lemma {:induction false} InsertByDateAdds(p: Post, posts: seq<Post>)
    requires NewestFirstOrder(posts)
    ensures multiset(InsertByDate(p, posts)) == multiset(posts) + multiset{p}
  {
    if posts != [] && posts[0].createdAt > p.createdAt {
      InsertByDateAdds(p, posts[1..]);
      assert posts == [posts[0]] + posts[1..];
    }
  }

  /** The listing order: newest first, posts created at the same time in table order. */
  function NewestFirst(posts: seq<Post>): (r: seq<Post>)
    ensures NewestFirstOrder(r)
    ensures multiset(r) == multiset(posts)
  {
    if posts == [] then []
    else
      assert posts == [posts[0]] + posts[1..];
      InsertByDateAdds(posts[0], NewestFirst(posts[1..]));
      InsertByDate(posts[0], NewestFirst(posts[1..]))
  }

  /** The posts created at time `t`, in table order. */
  function CreatedAt(posts: seq<Post>, t: int): seq<Post> {
    if posts == [] then []
    else (if posts[0].createdAt == t then [posts[0]] else []) + CreatedAt(posts[1..], t)
  }

  // Properties of the pure operations.

  /** Replacing a post by one with the same id keeps ids unique. */
  lemma ReplaceKeepsUnique(posts: seq<Post>, i: nat, p: Post)
    requires i < |posts| && p.id == posts[i].id
    ensures UniqueIds(posts) ==> UniqueIds(posts[i := p])
  {
    var q := posts[i := p];
    assert forall k | 0 <= k < |q| :: q[k].id == posts[k].id;
  }

  /** A post carrying the next id can be appended without breaking id uniqueness. */
  lemma AppendNextIdKeepsUnique(posts: seq<Post>, p: Post)
    requires UniqueIds(posts) && p.id == NextId(posts)
    ensures UniqueIds(posts + [p])
  {
    var q := posts + [p];
    forall i, j | 0 <= i < j < |q| ensures q[i].id != q[j].id {
      if j == |posts| {
        assert q[i] == posts[i];
      } else {
        assert q[i] == posts[i] && q[j] == posts[j];
      }
    }
  }

  /** Deleting distributes over concatenation: the survivors keep their relative order. */
  lemma {:induction false} WithoutAppend(a: seq<Post>, b: seq<Post>, id: int)
    ensures Without(a + b, id) == Without(a, id) + Without(b, id)
  {
    if a == [] {
      assert a + b == b;
    } else {
      assert (a + b)[1..] == a[1..] + b;
      WithoutAppend(a[1..], b, id);
    }
  }

  /** Deleting an id that no post carries leaves the table as it was. */
  lemma {:induction false} WithoutAbsent(posts: seq<Post>, id: int)
    requires !HasId(posts, id)
    ensures Without(posts, id) == posts
  {
    if posts != [] {
      WithoutAbsent(posts[1..], id);
      assert posts == [posts[0]] + posts[1..];
    }
  }

  /** Deleting twice is deleting once. */
  lemma DeleteIdempotent(posts: seq<Post>, id: int)
    ensures Without(Without(posts, id), id) == Without(posts, id)
  {
    WithoutAbsent(Without(posts, id), id);
  }

  /** A post whose id no other post carries can go in front of a table with unique ids. */
  lemma ConsKeepsUnique(p: Post, w: seq<Post>)
    requires UniqueIds(w) && forall k | 0 <= k < |w| :: w[k].id != p.id
    ensures UniqueIds([p] + w)
  {
    var q := [p] + w;
    forall i, j | 0 <= i < j < |q| ensures q[i].id != q[j].id {
      assert q[j] == w[j - 1];
      if i > 0 {
        assert q[i] == w[i - 1];
      }
    }
  }

  /** Deleting keeps ids unique. */
  lemma {:induction false} WithoutKeepsUnique(posts: seq<Post>, id: int)
    requires UniqueIds(posts)
    ensures UniqueIds(Without(posts, id))
  {
    if posts != [] {
      var rest := posts[1..];
      assert UniqueIds(rest) by {
        forall i, j | 0 <= i < j < |rest| ensures rest[i].id != rest[j].id {
          assert rest[i] == posts[i + 1] && rest[j] == posts[j + 1];
        }
      }
      WithoutKeepsUnique(rest, id);
      if posts[0].id != id {
        var w := Without(rest, id);
        forall k | 0 <= k < |w| ensures w[k].id != posts[0].id {
          assert w[k] in rest;
          var m :| 0 <= m < |rest| && rest[m] == w[k];
          assert posts[m + 1] == rest[m];
        }
        ConsKeepsUnique(posts[0], w);
      }
    }
  }

  /**
   * In a table with unique ids, deleting a present id removes exactly the one
   * post carrying it, at its position, and keeps everything else in order.
   */
  lemma DeleteUniqueRemovesOne(posts: seq<Post>, id: int, i: nat)
    requires UniqueIds(posts) && FirstIndex(posts, id) == Some(i)
    ensures Without(posts, id) == posts[..i] + posts[i + 1..]
    ensures |Without(posts, id)| == |posts| - 1
  {
    var before, after := posts[..i], posts[i + 1..];
    assert !HasId(before, id) by {
      assert forall k | 0 <= k < |before| :: before[k] == posts[k];
    }
    assert !HasId(after, id) by {
      assert forall k | 0 <= k < |after| :: after[k] == posts[i + 1 + k];
    }
    assert posts == before + [posts[i]] + after;
    WithoutAroundOne(before, posts[i], after, id);
  }

  lemma WithoutAroundOne(before: seq<Post>, p: Post, after: seq<Post>, id: int)
    requires !HasId(before, id) && p.id == id && !HasId(after, id)
    ensures Without(before + [p] + after, id) == before + after
  {
    var front := before + [p];
    assert Without([p], id) == [] by {
      assert [p][1..] == [];
    }
    WithoutAppend(before, [p], id);
    WithoutAbsent(before, id);
    assert Without(front, id) == before;
    WithoutAppend(front, after, id);
    WithoutAbsent(after, id);
  }

  /** Deleting the post just created, which carries a fresh id, restores the table. */
  lemma DeleteUndoesCreate(posts: seq<Post>, p: Post)
    requires !HasId(posts, p.id)
    ensures Without(posts + [p], p.id) == posts
  {
    WithoutAppend(posts, [p], p.id);
    WithoutAbsent(posts, p.id);
    assert Without([p], p.id) == Without([p][1..], p.id);
  }

  /** Insertion puts the new post ahead of the posts sharing its creation time and leaves the others in order. */
  lemma {:induction false} InsertCreatedAt(p: Post, posts: seq<Post>, t: int)
    requires NewestFirstOrder(posts)
    ensures CreatedAt(InsertByDate(p, posts), t) == (if p.createdAt == t then [p] else []) + CreatedAt(posts, t)
  {
    var r := InsertByDate(p, posts);
    var mine := if p.createdAt == t then [p] else [];
    if posts == [] || posts[0].createdAt <= p.createdAt {
      assert r == [p] + posts && r[1..] == posts;
    } else {
      var first := if posts[0].createdAt == t then [posts[0]] else [];
      var rest := InsertByDate(p, posts[1..]);
      assert r == [posts[0]] + rest && r[1..] == rest;
      InsertCreatedAt(p, posts[1..], t);
      assert first == [] || mine == [];
      calc {
        CreatedAt(r, t);
        first + CreatedAt(rest, t);
        first + (mine + CreatedAt(posts[1..], t));
        mine + (first + CreatedAt(posts[1..], t));
        mine + CreatedAt(posts, t);
      }
    }
  }

  /**
   * The listing keeps the table order among posts created at the same time:
   * the sort is stable, as Python's `list.sort` is with `reverse=True`.
   */
  lemma {:induction false} NewestFirstStable(posts: seq<Post>, t: int)
    ensures CreatedAt(NewestFirst(posts), t) == CreatedAt(posts, t)
  {
    if posts != [] {
      NewestFirstStable(posts[1..], t);
      InsertCreatedAt(posts[0], NewestFirst(posts[1..]), t);
    }
  }

  /**
   * The stored table with the request handlers that change it. Each handler
   * works on the table as loaded and, when it changes it, leaves the new
   * table in place of the file.
   */
  class PostTable {
    var posts: seq<Post>

    constructor (initial: seq<Post>)
      ensures posts == initial
    {
      posts := initial;
    }

    /**
     * Creating a post: a form with an empty title, content or author is
     * turned away and nothing is stored; otherwise one post with the
     * stripped fields, the next id and the two clock readings is appended.
     */
    method Create(form: Submission, createdAt: int, updatedAt: int) returns (r: Outcome)
      modifies this
      ensures r.Invalid? <==> !Acceptable(form)
      ensures !r.NotFound?
      ensures r.Invalid? ==> posts == old(posts)
      ensures r.Saved? ==> posts == old(posts) + [r.post]
      ensures r.Saved? ==> r.post == Post(NextId(old(posts)), Field(form.title), Field(form.content),
                                          Field(form.author), createdAt, updatedAt)
      ensures r.Saved? ==> !HasId(old(posts), r.post.id)
      ensures UniqueIds(old(posts)) ==> UniqueIds(posts)
    {
      var title := Field(form.title);
      var content := Field(form.content);
      var author := Field(form.author);
      if title == [] || content == [] || author == [] {
        return Invalid;
      }
      var post := Post(NextId(posts), title, content, author, createdAt, updatedAt);
      if UniqueIds(posts) {
        AppendNextIdKeepsUnique(posts, post);
      }
      posts := posts + [post];
      r := Saved(post);
    }

    /**
     * Editing a post: the first post with the id is looked up; when there is
     * none, or the form has an empty field, nothing changes. Otherwise that
     * one post gets the stripped title, content and author and the new
     * update time, and keeps its id and creation time; every other post,
     * and the order, stay as they were.
     */
    method Edit(postId: int, form: Submission, updatedAt: int) returns (r: Outcome)
      modifies this
      ensures r.NotFound? <==> !HasId(old(posts), postId)
      ensures r.Invalid? <==> HasId(old(posts), postId) && !Acceptable(form)
      ensures !r.Saved? ==> posts == old(posts)
      ensures r.Saved? ==>
        var i := FirstIndex(old(posts), postId).value;
        && posts == old(posts)[i := r.post]
        && r.post == old(posts)[i].(title := Field(form.title), content := Field(form.content),
                                    author := Field(form.author), updatedAt := updatedAt)
      ensures r.Saved? ==> r.post.id == postId
      ensures UniqueIds(old(posts)) ==> UniqueIds(posts)
    {
      var found := FirstIndex(posts, postId);
      if found.None? {
        return NotFound;
      }
      var i := found.value;
      var title := Field(form.title);
      var content := Field(form.content);
      var author := Field(form.author);
      if title == [] || content == [] || author == [] {
        return Invalid;
      }
      var post := posts[i].(title := title, content := content, author := author, updatedAt := updatedAt);
      ReplaceKeepsUnique(posts, i, post);
      posts := posts[i := post];
      r := Saved(post);
    }

    /** Deleting: every post with the id is dropped, the rest keep their order. */
    method Delete(postId: int)
      modifies this
      ensures posts == Without(old(posts), postId)
      ensures UniqueIds(old(posts)) ==> UniqueIds(posts)
    {
      if UniqueIds(posts) {
        WithoutKeepsUnique(posts, postId);
      }
      posts := Without(posts, postId);
    }

    /**
     * The index page: every stored post, newest first, posts created at the
     * same time in table order; the stored table itself is not changed.
     */
    method Index() returns (listing: seq<Post>)
      ensures NewestFirstOrder(listing)
      ensures multiset(listing) == multiset(posts)
      ensures forall t :: CreatedAt(listing, t) == CreatedAt(posts, t)
    {
      listing := NewestFirst(posts);
      forall t ensures CreatedAt(listing, t) == CreatedAt(posts, t) {
        NewestFirstStable(posts, t);
      }
    }
  }
}
