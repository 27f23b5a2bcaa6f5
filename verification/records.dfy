/** The post document the composer writes and the finder reads back.

    The composer builds a plain object whose field set depends on the post
    type; it is modelled as a map from field name to value (`Doc`). The
    same information as a tagged union (`Post`) makes the discriminated
    shape explicit, and `Encode`/`Decode` translate between the two. */
module Records {
  import opened Wrappers
  import opened Tags

  /** The two radio-button values of the composer. */
  datatype PostType = Question | Article

  /** The string stored in the document's `postType` field. */
  function PostTypeName(t: PostType): string {
    match t
    case Question => "question"
    case Article => "article"
  }

  function ParsePostType(s: string): (r: Option<PostType>)
    ensures r.Some? ==> PostTypeName(r.value) == s
    ensures r.None? ==> s != "question" && s != "article"
  {
    if s == "question" then Some(Question)
    else if s == "article" then Some(Article)
    else None
  }

  /** The clock reading taken when the document is built; it is opaque to
      every operation of the model. */
  datatype Timestamp = Timestamp(millis: int)

  /** A field value of a stored document. */
  datatype Value = Str(text: string) | StrList(items: seq<string>) | Time(at: Timestamp)

  type Doc = map<string, Value>

  /** The composer's draft fields, as they stand when Post is clicked. */
  datatype Draft = Draft(
    postType: PostType,
    title: string,
    description: string,
    abstractText: string,
    articleText: string,
    tags: string)

  /** Fields every post carries. */
  const CommonFields: set<string> := {"postType", "title", "tags", "imageUrl", "timestamp"}

  /** Fields only one variant carries. */
  function VariantFields(t: PostType): set<string> {
    match t
    case Question => {"description"}
    case Article => {"abstract", "articleText"}
  }

  /** The document `savePost` builds: the five common fields, then the
      question-only field when the type is a question, or the two
      article-only fields when it is an article. The source adds the
      variant fields to the common object one by one; the result is the
      same map as the single display written here for each variant. */
  function Assemble(d: Draft, imageUrl: string, now: Timestamp): (doc: Doc)
    ensures doc.Keys == CommonFields + VariantFields(d.postType)
    ensures d.postType == Question ==> "abstract" !in doc && "articleText" !in doc
    ensures d.postType == Article ==> "description" !in doc
    ensures doc["postType"] == Str(PostTypeName(d.postType))
    ensures doc["title"] == Str(d.title)
    ensures doc["tags"] == StrList(ParseTags(d.tags))
    ensures doc["imageUrl"] == Str(imageUrl)
    ensures doc["timestamp"] == Time(now)
    ensures d.postType == Question ==> doc["description"] == Str(d.description)
    ensures d.postType == Article ==> doc["abstract"] == Str(d.abstractText)
    ensures d.postType == Article ==> doc["articleText"] == Str(d.articleText)
  {
    match d.postType
    case Question =>
      map[
        "postType" := Str(PostTypeName(d.postType)),
        "title" := Str(d.title),
        "tags" := StrList(ParseTags(d.tags)),
        "imageUrl" := Str(imageUrl),
        "timestamp" := Time(now),
        "description" := Str(d.description)]
    case Article =>
      map[
        "postType" := Str(PostTypeName(d.postType)),
        "title" := Str(d.title),
        "tags" := StrList(ParseTags(d.tags)),
        "imageUrl" := Str(imageUrl),
        "timestamp" := Time(now),
        "abstract" := Str(d.abstractText),
        "articleText" := Str(d.articleText)]
  }

  /** A stored post as a tagged union: a question never has an abstract or
      article text, an article never has a description. */
  datatype Post =
    | QuestionPost(title: string, tags: seq<string>, imageUrl: string, timestamp: Timestamp,
                   description: string)
    | ArticlePost(title: string, tags: seq<string>, imageUrl: string, timestamp: Timestamp,
                  abstractText: string, articleText: string)
  {
    function Kind(): PostType {
      if QuestionPost? then Question else Article
    }
  }

  /** The document holding a post. */
  function Encode(p: Post): (doc: Doc)
    ensures doc.Keys == CommonFields + VariantFields(p.Kind())
  {
    var common := map[
      "postType" := Str(PostTypeName(p.Kind())),
      "title" := Str(p.title),
      "tags" := StrList(p.tags),
      "imageUrl" := Str(p.imageUrl),
      "timestamp" := Time(p.timestamp)];
    match p
    case QuestionPost(_, _, _, _, description) =>
      common["description" := Str(description)]
    case ArticlePost(_, _, _, _, abstractText, articleText) =>
      common["abstract" := Str(abstractText)]["articleText" := Str(articleText)]
  }

  /** Reads a document back as a post; None when its field set or a field's
      kind does not fit either variant. */
  function Decode(doc: Doc): (r: Option<Post>)
  {
    if "postType" !in doc || !doc["postType"].Str? then None
    else match ParsePostType(doc["postType"].text)
      case None => None
      case Some(t) =>
        if doc.Keys != CommonFields + VariantFields(t) then None
        else if !(doc["title"].Str? && doc["tags"].StrList? && doc["imageUrl"].Str? && doc["timestamp"].Time?) then None
        else match t
          case Question =>
            if doc["description"].Str? then
              Some(QuestionPost(doc["title"].text, doc["tags"].items, doc["imageUrl"].text, doc["timestamp"].at,
                                doc["description"].text))
            else None
          case Article =>
            if doc["abstract"].Str? && doc["articleText"].Str? then
              Some(ArticlePost(doc["title"].text, doc["tags"].items, doc["imageUrl"].text, doc["timestamp"].at,
                               doc["abstract"].text, doc["articleText"].text))
            else None
  }

  /** Every post survives a write and a read. */
  lemma DecodeEncode(p: Post)
    ensures Decode(Encode(p)) == Some(p)
  {
  }

  /** A document that reads back as a post is exactly that post's document:
      decoding loses nothing. */
  lemma EncodeDecode(doc: Doc)
    ensures Decode(doc).Some? ==> Encode(Decode(doc).value) == doc
  {
    if Decode(doc).Some? {
      var e := Encode(Decode(doc).value);
      assert e.Keys == doc.Keys;
      assert forall k :: k in doc ==> e[k] == doc[k];
    }
  }

  /** What the composer writes is a well-formed post of the selected type,
      carrying the draft's title and texts, the parsed tags and the image
      URL it was given. */
  lemma AssembleIsPost(d: Draft, imageUrl: string, now: Timestamp)
    ensures Decode(Assemble(d, imageUrl, now)).Some?
    ensures var p := Decode(Assemble(d, imageUrl, now)).value;
      && p.Kind() == d.postType
      && p.title == d.title
      && p.tags == ParseTags(d.tags)
      && p.imageUrl == imageUrl
      && p.timestamp == now
      && (p.QuestionPost? ==> p.description == d.description)
      && (p.ArticlePost? ==> p.abstractText == d.abstractText && p.articleText == d.articleText)
  {
  }
}
