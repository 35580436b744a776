/** The question-and-answer platform of questions/StackOverflowPlatformDemo.java:
    posts with votes, users with reputation, questions with answers, comments and
    tags, the tag index `QuestionRepository`, the three search strategies and the
    platform that posts and searches. `Post` is the common part of `Question`,
    `Answer` and `Comment`, which each hold one. The tag index and the searches
    are specified by functions on values (`IndexWith`, `Flatten`, `Filter`), whose
    lemmas say how many times a question is listed and in which order. */
module StackOverflow {
  import opened Text

  class User {
    const name: string
    const email: string
    var reputation: int

    constructor(name: string, email: string)
      ensures this.name == name && this.email == email && reputation == 0
    {
      this.name := name;
      this.email := email;
      reputation := 0;
    }

    /** Called when one of the user's posts gets a vote. */
    method NotifyVote(p: Post)
      modifies this
      ensures reputation == old(reputation) + 10
    {
      reputation := reputation + 10;
    }
  }

  class Post {
    const content: string
    var votes: int
    const author: User

    constructor(content: string, author: User)
      ensures this.content == content && this.author == author && votes == 0
    {
      this.content := content;
      this.author := author;
      votes := 0;
    }

    /** One more vote on the post, and ten more reputation for its author. */
    method Upvote()
      modifies this, author
      ensures votes == old(votes) + 1
      ensures author.reputation == old(author.reputation) + 10
    {
      votes := votes + 1;
      author.NotifyVote(this);
    }
  }

  class Comment {
    const post: Post

    constructor(content: string, author: User)
      ensures fresh(post) && post.content == content && post.author == author && post.votes == 0
    {
      post := new Post(content, author);
    }
  }

  class Answer {
    const post: Post
    var comments: seq<Comment>

    constructor(content: string, author: User)
      ensures fresh(post) && post.content == content && post.author == author && post.votes == 0
      ensures comments == []
    {
      post := new Post(content, author);
      comments := [];
    }

    method AddComment(c: Comment)
      modifies this
      ensures comments == old(comments) + [c]
    {
      comments := comments + [c];
    }
  }

  class Question {
    const post: Post
    var answers: seq<Answer>
    var comments: seq<Comment>
    const tags: seq<string>

    constructor(content: string, author: User, tags: seq<string>)
      ensures fresh(post) && post.content == content && post.author == author && post.votes == 0
      ensures answers == [] && comments == [] && this.tags == tags
    {
      post := new Post(content, author);
      answers := [];
      comments := [];
      this.tags := tags;
    }

    method AddAnswer(a: Answer)
      modifies this
      ensures answers == old(answers) + [a] && comments == old(comments)
    {
      answers := answers + [a];
    }

    method AddComment(c: Comment)
      modifies this
      ensures comments == old(comments) + [c] && answers == old(answers)
    {
      comments := comments + [c];
    }
  }

  /** The contents of `questionsByTag`: each tag's list of questions. */
  type Index = map<string, seq<Question>>

  /** `getOrDefault(tag, emptyList())`. */
  function Get(m: Index, tag: string): seq<Question> {
    if tag in m then m[tag] else []
  }

  /** One pass of the loop in `addQuestion`: `putIfAbsent(tag, [])`, then append. */
  function Put(m: Index, tag: string, q: Question): Index {
    m[tag := Get(m, tag) + [q]]
  }

  /** `addQuestion(q)` on an index: one `Put` per entry of `tags`, in order. */
  function IndexWith(m: Index, tags: seq<string>, q: Question): Index
    decreases |tags|
  {
    if tags == [] then m else Put(IndexWith(m, tags[..|tags| - 1], q), tags[|tags| - 1], q)
  }

  /** The index built by adding the questions in order to an empty repository. */
  function IndexAll(posted: seq<Question>): Index
    decreases |posted|
  {
    if posted == [] then map[]
    else
      var q := posted[|posted| - 1];
      IndexWith(IndexAll(posted[..|posted| - 1]), q.tags, q)
  }

  /** `n` copies of `q`. */
  function Repeat(q: Question, n: nat): seq<Question> {
    if n == 0 then [] else Repeat(q, n - 1) + [q]
  }

  /** The tags in the order the index first saw them: each tag not yet present is
      appended. */
  function OrderWith(order: seq<string>, tags: seq<string>): seq<string>
    decreases |tags|
  {
    if tags == [] then order
    else
      var before := OrderWith(order, tags[..|tags| - 1]);
      var t := tags[|tags| - 1];
      if t in before then before else before + [t]
  }

  predicate DistinctTags(order: seq<string>) {
    forall i, j :: 0 <= i < j < |order| ==> order[i] != order[j]
  }

  /** `getAllQuestions`: the lists of the tags in `order`, one after the other. */
  function Flatten(m: Index, order: seq<string>): seq<Question>
    decreases |order|
  {
    if order == [] then [] else Flatten(m, order[..|order| - 1]) + Get(m, order[|order| - 1])
  }

  /** The sum of the lengths of the lists of the tags in `order`. */
  function TotalLength(m: Index, order: seq<string>): nat
    decreases |order|
  {
    if order == [] then 0 else TotalLength(m, order[..|order| - 1]) + |Get(m, order[|order| - 1])|
  }

  /** How many entries of `tags` are one of the tags in `order`, counted tag by tag. */
  function TagCount(order: seq<string>, tags: seq<string>): nat
    decreases |order|
  {
    if order == [] then 0 else TagCount(order[..|order| - 1], tags) + multiset(tags)[order[|order| - 1]]
  }

  lemma {:induction false} RepeatCount(q: Question, n: nat, p: Question)
    ensures multiset(Repeat(q, n))[p] == if p == q then n else 0
  {
    if n > 0 {
      RepeatCount(q, n - 1, p);
    }
  }

  /** After `addQuestion(q)` the list of each tag is the old list (empty for a new
      tag) followed by one copy of `q` per occurrence of the tag among q's tags; the
      lists of other tags are unchanged. */
  lemma {:induction false} IndexWithGet(m: Index, tags: seq<string>, q: Question, t: string)
    ensures Get(IndexWith(m, tags, q), t) == Get(m, t) + Repeat(q, multiset(tags)[t])
    ensures t !in tags ==> Get(IndexWith(m, tags, q), t) == Get(m, t)
    decreases |tags|
  {
    if tags != [] {
      var init, last := tags[..|tags| - 1], tags[|tags| - 1];
      IndexWithGet(m, init, q, t);
      assert tags == init + [last];
      assert multiset(tags)[t] == multiset(init)[t] + if t == last then 1 else 0;
    }
  }

  /** `addQuestion` creates a list for each new tag and no other. */
  lemma {:induction false} IndexWithKeys(m: Index, tags: seq<string>, q: Question)
    ensures IndexWith(m, tags, q).Keys == m.Keys + set t | t in tags
    decreases |tags|
  {
    if tags != [] {
      IndexWithKeys(m, tags[..|tags| - 1], q);
      assert tags == tags[..|tags| - 1] + [tags[|tags| - 1]];
    }
  }

  /** In an index built from `posted`, the list of tag `t` holds each question once
      per posting and per occurrence of `t` among its tags. */
  lemma {:induction false} IndexAllGet(posted: seq<Question>, t: string, q: Question)
    ensures multiset(Get(IndexAll(posted), t))[q] == multiset(posted)[q] * multiset(q.tags)[t]
    decreases |posted|
  {
    if posted != [] {
      var init: seq<Question> := posted[..|posted| - 1];
      var last: Question := posted[|posted| - 1];
      var before: seq<Question> := Get(IndexAll(init), t);
      var k: nat := multiset(q.tags)[t];
      var ms: multiset<Question> := multiset(init);
      var n: nat := ms[q];
      IndexAllGet(init, t, q);
      assert multiset(before)[q] == n * k;
      IndexWithGet(IndexAll(init), last.tags, last, t);
      assert Get(IndexAll(posted), t) == before + Repeat(last, multiset(last.tags)[t]);
      RepeatCount(last, multiset(last.tags)[t], q);
      assert posted == init + [last];
      if last == q {
        assert multiset(posted)[q] == n + 1;
        MulSucc(n, k);
      } else {
        assert multiset(posted)[q] == n;
      }
    }
  }

  lemma MulAdd(n: nat, a: nat, b: nat)
    ensures n * (a + b) == n * a + n * b
  {
  }

  lemma MulSucc(n: nat, k: nat)
    ensures (n + 1) * k == n * k + k
  {
  }

  /** The first-seen order stays free of repeats and lists exactly the old tags and
      the new ones. */
  lemma {:induction false} OrderWithFacts(order: seq<string>, tags: seq<string>)
    requires DistinctTags(order)
    ensures DistinctTags(OrderWith(order, tags))
    ensures forall t :: t in OrderWith(order, tags) <==> t in order || t in tags
    ensures |order| <= |OrderWith(order, tags)| && OrderWith(order, tags)[..|order|] == order
    decreases |tags|
  {
    if tags != [] {
      OrderWithFacts(order, tags[..|tags| - 1]);
      assert tags == tags[..|tags| - 1] + [tags[|tags| - 1]];
    }
  }

  /** `getAllQuestions` is as long as all the lists together. */
  lemma {:induction false} FlattenLength(m: Index, order: seq<string>)
    ensures |Flatten(m, order)| == TotalLength(m, order)
    decreases |order|
  {
    if order != [] {
      FlattenLength(m, order[..|order| - 1]);
    }
  }

  /** Summing, over a repeat-free list of tags that covers all of `tags`, how often
      each occurs in `tags` gives the length of `tags`. */
  lemma {:induction false} TagCountCovers(order: seq<string>, tags: seq<string>)
    requires DistinctTags(order) && forall t :: t in tags ==> t in order
    ensures TagCount(order, tags) == |tags|
    decreases |tags|
  {
    if tags != [] {
      var init, last := tags[..|tags| - 1], tags[|tags| - 1];
      assert tags == init + [last];
      TagCountCovers(order, init);
      TagCountSnoc(order, init, last);
      DistinctCountsOnce(order, last);
    } else {
      TagCountOfNone(order);
    }
  }

  lemma {:induction false} TagCountOfNone(order: seq<string>)
    ensures TagCount(order, []) == 0
    decreases |order|
  {
    if order != [] {
      TagCountOfNone(order[..|order| - 1]);
    }
  }

  lemma {:induction false} TagCountSnoc(order: seq<string>, tags: seq<string>, x: string)
    ensures TagCount(order, tags + [x]) == TagCount(order, tags) + multiset(order)[x]
    decreases |order|
  {
    assert multiset(tags + [x]) == multiset(tags) + multiset{x};
    if order != [] {
      var init, last := order[..|order| - 1], order[|order| - 1];
      TagCountSnoc(init, tags, x);
      assert order == init + [last];
      assert multiset(order) == multiset(init) + multiset{last};
    }
  }

  lemma {:induction false} DistinctCountsOnce(order: seq<string>, x: string)
    requires DistinctTags(order) && x in order
    ensures multiset(order)[x] == 1
    decreases |order|
  {
    var init, last := order[..|order| - 1], order[|order| - 1];
    assert order == init + [last];
    assert multiset(order) == multiset(init) + multiset{last};
    if x == last {
      assert x !in init;
    } else {
      DistinctCountsOnce(init, x);
    }
  }

  /** Listing the index built from `posted` tag by tag, in an order that names every
      tag of the index once, shows each question once per posting and per entry of
      its tags. */
  lemma {:induction false} AllQuestionsCount(posted: seq<Question>, order: seq<string>, q: Question)
    requires DistinctTags(order) && forall t :: t in IndexAll(posted) <==> t in order
    ensures multiset(Flatten(IndexAll(posted), order))[q] == multiset(posted)[q] * |q.tags|
  {
    FlattenCount(posted, order, q);
    if q in posted {
      forall t | t in q.tags
        ensures t in order
      {
        IndexAllGet(posted, t, q);
        assert multiset(q.tags)[t] > 0;
      }
      TagCountCovers(order, q.tags);
    }
  }

  lemma {:induction false} FlattenCount(posted: seq<Question>, order: seq<string>, q: Question)
    ensures multiset(Flatten(IndexAll(posted), order))[q] == multiset(posted)[q] * TagCount(order, q.tags)
    decreases |order|
  {
    if order != [] {
      var init, last := order[..|order| - 1], order[|order| - 1];
      FlattenCount(posted, init, q);
      IndexAllGet(posted, last, q);
      var m := IndexAll(posted);
      assert multiset(Flatten(m, order)) == multiset(Flatten(m, init)) + multiset(Get(m, last));
      MulAdd(multiset(posted)[q], TagCount(init, q.tags), multiset(q.tags)[last]);
    }
  }

  /** What a filtering search keeps. */
  datatype Criterion =
    | Keyword(keyword: string)  // `KeywordSearchStrategy`
    | Author(username: string)  // `UserSearchStrategy`

  predicate Matches(q: Question, c: Criterion) {
    match c
    case Keyword(k) => Contains(ToLower(q.post.content), ToLower(k))
    case Author(u) => EqualsIgnoreCase(q.post.author.name, u)
  }

  /** The questions of `qs` that match, in `qs` order. */
  function Filter(qs: seq<Question>, c: Criterion): seq<Question>
    decreases |qs|
  {
    if qs == [] then [] else Filter(qs[..|qs| - 1], c) + if Matches(qs[|qs| - 1], c) then [qs[|qs| - 1]] else []
  }

  /** A filter keeps each matching question as often as it occurs, and nothing else. */
  lemma {:induction false} FilterKeeps(qs: seq<Question>, c: Criterion, q: Question)
    ensures multiset(Filter(qs, c))[q] == if Matches(q, c) then multiset(qs)[q] else 0
    ensures q in Filter(qs, c) <==> q in qs && Matches(q, c)
    decreases |qs|
  {
    if qs != [] {
      var init: seq<Question> := qs[..|qs| - 1];
      var last: Question := qs[|qs| - 1];
      FilterKeeps(init, c, q);
      assert qs == init + [last];
      assert multiset(qs)[q] == multiset(init)[q] + if last == q then 1 else 0;
    }
  }

  /** Filtering keeps order: the result for a concatenation is the concatenation of
      the results. */
  lemma {:induction false} FilterAppend(a: seq<Question>, b: seq<Question>, c: Criterion)
    ensures Filter(a + b, c) == Filter(a, c) + Filter(b, c)
    decreases |b|
  {
    if b != [] {
      var init, last := b[..|b| - 1], b[|b| - 1];
      FilterAppend(a, init, c);
      assert a + b == (a + init) + [last];
      assert (a + b)[..|a + b| - 1] == a + init;
    } else {
      assert a + b == a;
    }
  }

  /** An empty keyword occurs in every content, so the keyword search for "" lists
      every question. */
  lemma {:induction false} EmptyKeywordKeepsAll(qs: seq<Question>)
    ensures Filter(qs, Keyword("")) == qs
    decreases |qs|
  {
    if qs != [] {
      EmptyKeywordKeepsAll(qs[..|qs| - 1]);
      ContainsFacts(ToLower(qs[|qs| - 1].post.content), "");
      assert qs == qs[..|qs| - 1] + [qs[|qs| - 1]];
    }
  }

  class QuestionRepository {
    var questionsByTag: Index
    /** The tags of `questionsByTag`, in the order `values()` visits them. */
    var tagOrder: seq<string>
    /** Every question added so far, in order. */
    ghost var posted: seq<Question>

    ghost predicate Valid()
      reads this
    {
      && DistinctTags(tagOrder)
      && (forall t :: t in questionsByTag <==> t in tagOrder)
      && questionsByTag == IndexAll(posted)
    }

    constructor()
      ensures Valid() && posted == [] && questionsByTag == map[] && tagOrder == []
    {
      questionsByTag := map[];
      tagOrder := [];
      posted := [];
    }

    method AddQuestion(q: Question)
      requires Valid()
      modifies this
      ensures Valid() && posted == old(posted) + [q]
      ensures questionsByTag == IndexWith(old(questionsByTag), q.tags, q)
      ensures tagOrder == OrderWith(old(tagOrder), q.tags)
    {
      for i := 0 to |q.tags|
        invariant questionsByTag == IndexWith(old(questionsByTag), q.tags[..i], q)
        invariant tagOrder == OrderWith(old(tagOrder), q.tags[..i])
        invariant forall t :: t in questionsByTag <==> t in tagOrder
        invariant posted == old(posted)
      {
        assert q.tags[..i + 1][..i] == q.tags[..i];
        var tag := q.tags[i];
        if tag !in questionsByTag {
          questionsByTag := questionsByTag[tag := []];
          tagOrder := tagOrder + [tag];
        }
        questionsByTag := questionsByTag[tag := questionsByTag[tag] + [q]];
      }
      assert q.tags[..|q.tags|] == q.tags;
      OrderWithFacts(old(tagOrder), q.tags);
      posted := posted + [q];
      assert posted[..|posted| - 1] == old(posted);
    }

    /** `getQuestionsByTag`: the list of a known tag, empty for any other. Each
        question it lists carries the tag, as often as it was posted times the tag's
        occurrences among its tags. */
    function GetQuestionsByTag(tag: string): (r: seq<Question>)
      reads this
      ensures tag !in questionsByTag ==> r == []
      ensures Valid() ==> forall q | q in r :: q in posted && tag in q.tags
      ensures Valid() ==> forall q | q in posted :: multiset(r)[q] == multiset(posted)[q] * multiset(q.tags)[tag]
    {
      IndexAllGetAll(posted, tag);
      Get(questionsByTag, tag)
    }

    /** All lists in `tagOrder`, concatenated. */
    function AllQuestions(): seq<Question>
      reads this
    {
      Flatten(questionsByTag, tagOrder)
    }

    /** `getAllQuestions`: every list appended in turn. Each question appears once
        per posting and per entry of its tags. */
    method GetAllQuestions() returns (all: seq<Question>)
      requires Valid()
      ensures all == AllQuestions()
      ensures forall q: Question :: multiset(all)[q] == multiset(posted)[q] * |q.tags|
      ensures |all| == TotalLength(questionsByTag, tagOrder)
    {
      all := [];
      for i := 0 to |tagOrder|
        invariant all == Flatten(questionsByTag, tagOrder[..i])
      {
        assert tagOrder[..i + 1][..i] == tagOrder[..i];
        all := all + questionsByTag[tagOrder[i]];
      }
      assert tagOrder[..|tagOrder|] == tagOrder;
      forall q {
        AllQuestionsCount(posted, tagOrder, q);
      }
      FlattenLength(questionsByTag, tagOrder);
    }
  }

  lemma IndexAllGetAll(posted: seq<Question>, tag: string)
    ensures forall q: Question :: multiset(Get(IndexAll(posted), tag))[q] == multiset(posted)[q] * multiset(q.tags)[tag]
    ensures forall q | q in Get(IndexAll(posted), tag) :: q in posted && tag in q.tags
  {
    forall q: Question {
      IndexAllGet(posted, tag, q);
    }
    forall q | q in Get(IndexAll(posted), tag)
      ensures q in posted && tag in q.tags
    {
      IndexAllGet(posted, tag, q);
      assert multiset(Get(IndexAll(posted), tag))[q] > 0;
    }
  }

  /** A filtering search: every question of `getAllQuestions` that matches, in that
      order. */
  method FilterSearch(c: Criterion, repo: QuestionRepository) returns (result: seq<Question>)
    requires repo.Valid()
    ensures result == Filter(repo.AllQuestions(), c)
  {
    var all := repo.GetAllQuestions();
    result := FilterLoop(all, c);
  }

  /** The loop of the keyword and user searches: append each question that matches. */
  method FilterLoop(all: seq<Question>, c: Criterion) returns (result: seq<Question>)
    ensures result == Filter(all, c)
  {
    result := [];
    for i := 0 to |all|
      invariant result == Filter(all[..i], c)
    {
      assert all[..i + 1][..i] == all[..i];
      if Matches(all[i], c) {
        result := result + [all[i]];
      }
    }
    assert all[..|all|] == all;
  }

  datatype SearchStrategy = TagSearchStrategy | KeywordSearchStrategy | UserSearchStrategy

  /** `strategy.search(query, repo)`. */
  method Search(strategy: SearchStrategy, query: string, repo: QuestionRepository) returns (result: seq<Question>)
    requires repo.Valid()
    ensures strategy.TagSearchStrategy? ==> result == repo.GetQuestionsByTag(query)
    ensures strategy.KeywordSearchStrategy? ==> result == Filter(repo.AllQuestions(), Keyword(query))
    ensures strategy.UserSearchStrategy? ==> result == Filter(repo.AllQuestions(), Author(query))
  {
    match strategy
    case TagSearchStrategy =>
      result := repo.GetQuestionsByTag(query);
    case KeywordSearchStrategy =>
      result := FilterSearch(Keyword(query), repo);
    case UserSearchStrategy =>
      result := FilterSearch(Author(query), repo);
  }

  class StackOverflowPlatform {
    const questionRepo: QuestionRepository

    constructor()
      ensures fresh(questionRepo) && questionRepo.Valid() && questionRepo.posted == []
    {
      questionRepo := new QuestionRepository();
    }

    /** A new question with this content, author and tags is added to the index. */
    method PostQuestion(content: string, user: User, tags: seq<string>)
      requires questionRepo.Valid()
      modifies questionRepo
      ensures questionRepo.Valid() && |questionRepo.posted| == |old(questionRepo.posted)| + 1
      ensures var q := questionRepo.posted[|questionRepo.posted| - 1];
        && fresh(q) && fresh(q.post)
        && q.post.content == content && q.post.author == user && q.tags == tags && q.post.votes == 0
        && questionRepo.posted == old(questionRepo.posted) + [q]
        && questionRepo.questionsByTag == IndexWith(old(questionRepo.questionsByTag), tags, q)
    {
      var q := new Question(content, user, tags);
      questionRepo.AddQuestion(q);
    }

    method SearchQuestions(strategy: SearchStrategy, query: string) returns (result: seq<Question>)
      requires questionRepo.Valid()
      ensures strategy.TagSearchStrategy? ==> result == questionRepo.GetQuestionsByTag(query)
      ensures strategy.KeywordSearchStrategy? ==> result == Filter(questionRepo.AllQuestions(), Keyword(query))
      ensures strategy.UserSearchStrategy? ==> result == Filter(questionRepo.AllQuestions(), Author(query))
    {
      result := Search(strategy, query, questionRepo);
    }
  }
}
