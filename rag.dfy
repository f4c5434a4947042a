/** `RAGEngine`: indexing the course PDFs into the document store, answering a question from the
    retrieved chunks, and the store statistics. The store, the PDF parsing of a course and the
    Ollama server are abstract: their answers are fixed functions held by the objects. */
module Rag {
  import opened Wrappers
  import opened Strings
  import opened Ollama

  /** A configured course: its code and its name. */
  datatype Course = Course(code: string, name: string)

  /** The configuration the engine reads: `courses` (in their configured order), `paths.data_dir`,
      `rag.top_k` and `rag.similarity_threshold`; `None` is a missing key. */
  datatype EngineConfig = EngineConfig(courses: seq<Course>, dataDir: Option<string>,
                                       topK: Option<int>, similarityThreshold: Option<real>)

  /** A parsed chunk of a course PDF, as `parse_course_pdfs` hands it over. */
  datatype Document = Document(courseCode: string, courseName: string, contentType: string, fileName: string,
                               text: string, chunkIndex: int, pageNumber: int)

  /** A tuple of a batch insert: the document's fields, its embedding and the metadata. */
  datatype Row = Row(courseCode: string, courseName: string, contentType: string, fileName: string,
                     chunkText: string, chunkIndex: int, pageNumber: int, embedding: Vector,
                     metadata: Option<string>)

  datatype SearchRequest = SearchRequest(embedding: Vector, topK: int, courseCode: Option<string>,
                                         similarityThreshold: real)

  /** A row returned by the similarity search. */
  datatype SearchResult = SearchResult(courseCode: string, courseName: string, contentType: string,
                                       fileName: string, text: string, chunkIndex: int, pageNumber: int,
                                       similarity: real)

  /** An entry of an answer's `sources`. */
  datatype SourceRecord = SourceRecord(courseCode: string, courseName: string, contentType: string,
                                       fileName: string, pageNumber: int, similarity: real)

  datatype Answer = Answer(question: string, answer: string, sources: seq<SourceRecord>, contextUsed: bool)

  /** An entry of `get_all_courses`: a course and how many chunks it has. */
  datatype CourseCount = CourseCount(courseCode: string, courseName: string, documentCount: nat)

  datatype Statistics = Statistics(totalDocuments: nat, courses: seq<CourseCount>, configuredCourses: nat)

  const DefaultContentTypes: seq<string> := ["coursenotes", "textbook"]
  const UnknownCoursePrefix: string := "Unknown course code: "
  const QueryFailedPrefix: string := "Query failed: "
  const BatchInsertFailedPrefix: string := "Failed to batch insert documents: "
  const SearchFailedPrefix: string := "Similarity search failed: "

  const NoResultsAnswer: string :=
    "I couldn't find any relevant information in the aerospace course materials for your question."

  /** The system prompt of every answer, with the indentation of its continuation lines. */
  const SystemPrompt: string :=
    "You are an expert aerospace engineering assistant.\n"
    + "            Use the provided context from MIT aerospace course materials to answer questions accurately and helpfully.\n"
    + "            If the context doesn't contain enough information, say so.\n"
    + "            Explain concepts clearly and include relevant equations, principles, or examples when appropriate.\n"
    + "            Always cite which source you're using in your answer."

  /** `str(KeyError(key))` */
  function KeyErrorMessage(key: string): string
  {
    "'" + key + "'"
  }

  function Min(a: nat, b: nat): nat
  {
    if a <= b then a else b
  }

  /** The insert tuple of one document and its embedding; the metadata is empty. */
  function MakeRow(doc: Document, embedding: Vector): Row
  {
    Row(doc.courseCode, doc.courseName, doc.contentType, doc.fileName, doc.text, doc.chunkIndex,
        doc.pageNumber, embedding, None)
  }

  /** `zip(documents, embeddings)` made into insert tuples. */
  function Batch(docs: seq<Document>, embeddings: seq<Vector>): seq<Row>
  {
    seq(Min(|docs|, |embeddings|), i requires 0 <= i < Min(|docs|, |embeddings|) => MakeRow(docs[i], embeddings[i]))
  }

  /** The batch is as long as the shorter list; each tuple pairs the document and the embedding at
      its position, copies the seven document fields and has no metadata. */
  lemma BatchSpec(docs: seq<Document>, embeddings: seq<Vector>)
    ensures |Batch(docs, embeddings)| == Min(|docs|, |embeddings|)
    ensures forall i :: 0 <= i < |Batch(docs, embeddings)| ==>
      var row := Batch(docs, embeddings)[i];
      && row.courseCode == docs[i].courseCode && row.courseName == docs[i].courseName
      && row.contentType == docs[i].contentType && row.fileName == docs[i].fileName
      && row.chunkText == docs[i].text && row.chunkIndex == docs[i].chunkIndex
      && row.pageNumber == docs[i].pageNumber && row.embedding == embeddings[i]
      && row.metadata.None?
  {
  }

  /** `[doc['text'] for doc in documents]` */
  function Texts(docs: seq<Document>): seq<string>
  {
    seq(|docs|, i requires 0 <= i < |docs| => docs[i].text)
  }

  /** The batch-insert loop of `index_documents`. */
  method BuildBatch(docs: seq<Document>, embeddings: seq<Vector>) returns (batch: seq<Row>)
    ensures batch == Batch(docs, embeddings)
  {
    batch := [];
    var n := Min(|docs|, |embeddings|);
    for i := 0 to n
      invariant |batch| == i
      invariant forall k :: 0 <= k < i ==> batch[k] == MakeRow(docs[k], embeddings[k])
    {
      var doc, embedding := docs[i], embeddings[i];
      batch := batch + [Row(doc.courseCode, doc.courseName, doc.contentType, doc.fileName, doc.text,
                            doc.chunkIndex, doc.pageNumber, embedding, None)];
    }
  }

  /** The label of the `i`-th block. */
  function SourceTag(i: nat): string
  {
    "[Source " + NatToString(i) + "]"
  }

  /** What a block says about where its chunk comes from. */
  function Provenance(r: SearchResult): string
  {
    " From " + r.courseName + " (" + r.contentType + ", " + r.fileName + ", page " + IntToString(r.pageNumber) + "):\n"
  }

  /** The labelled block of one retrieved chunk, numbered from 1: the label, the provenance line
      and the chunk text with a closing newline, joined. */
  function ContextPart(i: nat, r: SearchResult): string
  {
    Join([SourceTag(i), Provenance(r), r.text + "\n"], "")
  }

  /** Every block begins with its tag `[Source i]` and ends with the chunk text and a newline. */
  lemma {:induction false} ContextPartLayout(i: nat, r: SearchResult)
    ensures var p := ContextPart(i, r);
      && |SourceTag(i)| + |r.text| + 1 <= |p|
      && p[..|SourceTag(i)|] == SourceTag(i)
      && p[|p| - |r.text| - 1..] == r.text + "\n"
  {
    var tag, middle, tail := SourceTag(i), Provenance(r), r.text + "\n";
    var pieces := [tag, middle, tail];
    assert pieces[1..] == [middle, tail];
    assert pieces[1..][1..] == [tail];
    var p := ContextPart(i, r);
    assert Join([tail], "") == tail;
    assert Join([middle, tail], "") == middle + "" + tail;
    assert p == tag + "" + (middle + "" + tail);
    assert p == (tag + middle) + tail;
  }

  /** Blocks with different numbers are different, whatever they quote: the labels tell them apart. */
  lemma {:induction false} ContextPartsDistinct(i: nat, j: nat, r: SearchResult, s: SearchResult)
    requires i != j
    ensures ContextPart(i, r) != ContextPart(j, s)
  {
    var a, b := NatToString(i), NatToString(j);
    var p, q := ContextPart(i, r), ContextPart(j, s);
    ContextPartLayout(i, r);
    ContextPartLayout(j, s);
    if |a| == |b| {
      NatToStringInjective(i, j);
      assert p[8..8 + |a|] == SourceTag(i)[8..8 + |a|] == a;
      assert q[8..8 + |b|] == SourceTag(j)[8..8 + |b|] == b;
    } else if |a| < |b| {
      assert p[8 + |a|] == SourceTag(i)[8 + |a|] == ']';
      assert q[8 + |a|] == SourceTag(j)[8 + |a|] == b[|a|];
    } else {
      assert q[8 + |b|] == SourceTag(j)[8 + |b|] == ']';
      assert p[8 + |b|] == SourceTag(i)[8 + |b|] == a[|b|];
    }
  }

  /** The blocks of the retrieved chunks, in result order, labelled 1, 2, 3, ... */
  function ContextParts(results: seq<SearchResult>): (parts: seq<string>)
    ensures |parts| == |results|
    ensures forall k :: 0 <= k < |results| ==> parts[k] == ContextPart(k + 1, results[k])
  {
    seq(|results|, k requires 0 <= k < |results| => ContextPart(k + 1, results[k]))
  }

  /** No two blocks of a context are the same. */
  lemma ContextPartsUnique(results: seq<SearchResult>)
    ensures forall k, l :: 0 <= k < l < |results| ==> ContextParts(results)[k] != ContextParts(results)[l]
  {
    forall k, l | 0 <= k < l < |results| ensures ContextParts(results)[k] != ContextParts(results)[l] {
      ContextPartsDistinct(k + 1, l + 1, results[k], results[l]);
    }
  }

  /** The entry of `sources` for one result: six of its fields. */
  function SourceOf(r: SearchResult): SourceRecord
  {
    SourceRecord(r.courseCode, r.courseName, r.contentType, r.fileName, r.pageNumber, r.similarity)
  }

  /** The sources of an answer mirror the results, in order. */
  function Sources(results: seq<SearchResult>): (sources: seq<SourceRecord>)
    ensures |sources| == |results|
    ensures forall k :: 0 <= k < |results| ==>
      && sources[k].courseCode == results[k].courseCode && sources[k].courseName == results[k].courseName
      && sources[k].contentType == results[k].contentType && sources[k].fileName == results[k].fileName
      && sources[k].pageNumber == results[k].pageNumber && sources[k].similarity == results[k].similarity
  {
    seq(|results|, k requires 0 <= k < |results| => SourceOf(results[k]))
  }

  /** The context-building loop of `query`. */
  method BuildContext(results: seq<SearchResult>) returns (parts: seq<string>, sources: seq<SourceRecord>)
    ensures parts == ContextParts(results)
    ensures sources == Sources(results)
  {
    parts, sources := [], [];
    for i := 0 to |results|
      invariant parts == ContextParts(results)[..i]
      invariant sources == Sources(results)[..i]
    {
      var result := results[i];
      PrefixSnoc(ContextParts(results), i);
      PrefixSnoc(Sources(results), i);
      parts := parts + [ContextPart(i + 1, result)];
      sources := sources + [SourceRecord(result.courseCode, result.courseName, result.contentType,
                                         result.fileName, result.pageNumber, result.similarity)];
    }
    assert ContextParts(results)[..|results|] == ContextParts(results);
    assert Sources(results)[..|results|] == Sources(results);
  }

  /** The context handed to the model: the blocks joined by newlines. Its length is the blocks'
      lengths plus one newline between each pair. */
  function Context(results: seq<SearchResult>): (c: string)
    requires results != []
    ensures |c| == SumLen(ContextParts(results)) + |results| - 1
  {
    JoinLength(ContextParts(results), "\n");
    Join(ContextParts(results), "\n")
  }

  /** The document store: its rows, and the outcomes of the operations it performs. */
  class Database {
    var rows: seq<Row>
    /** The error a batch insert of these tuples raises, if any. */
    const insertError: seq<Row> -> Option<string>
    /** The rows a similarity search over the stored rows returns, best first, or its error. */
    const search: (seq<Row>, SearchRequest) -> Result<seq<SearchResult>>
    /** The per-course counts `get_all_courses` reports for the stored rows. */
    const summarize: seq<Row> -> seq<CourseCount>

    constructor(rows: seq<Row>, insertError: seq<Row> -> Option<string>,
                search: (seq<Row>, SearchRequest) -> Result<seq<SearchResult>>,
                summarize: seq<Row> -> seq<CourseCount>)
      ensures this.rows == rows
      ensures this.insertError == insertError && this.search == search && this.summarize == summarize
    {
      this.rows := rows;
      this.insertError := insertError;
      this.search := search;
      this.summarize := summarize;
    }

    /** `insert_documents_batch`: all tuples are stored, or none (the transaction rolls back). */
    method InsertDocumentsBatch(batch: seq<Row>) returns (error: Option<string>)
      modifies this
      ensures insertError(batch).None? ==> error.None? && rows == old(rows) + batch
      ensures insertError(batch).Some? ==>
        error == Some(BatchInsertFailedPrefix + insertError(batch).value) && rows == old(rows)
    {
      var failure := insertError(batch);
      if failure.Some? {
        return Some(BatchInsertFailedPrefix + failure.value);
      }
      rows := rows + batch;
      return None;
    }

    /** `similarity_search`: the search over the stored rows, its error prefixed. */
    function SimilaritySearch(request: SearchRequest): (r: Result<seq<SearchResult>>)
      reads this
      ensures search(rows, request).Success? ==> r == search(rows, request)
      ensures search(rows, request).Failure? ==> r == Failure(SearchFailedPrefix + search(rows, request).error)
    {
      match search(rows, request)
      case Success(results) => Success(results)
      case Failure(e) => Failure(SearchFailedPrefix + e)
    }
  }

  class RagEngine {
    const config: EngineConfig
    const db: Database
    const ollama: OllamaClient
    /** `parse_course_pdfs(code, name, data_dir, content_types)`: the chunks of a course, or its error. */
    const parseCourse: (string, string, string, seq<string>) -> Result<seq<Document>>

    constructor(config: EngineConfig, db: Database, ollama: OllamaClient,
                parseCourse: (string, string, string, seq<string>) -> Result<seq<Document>>)
      ensures this.config == config && this.db == db && this.ollama == ollama
      ensures this.parseCourse == parseCourse
    {
      this.config := config;
      this.db := db;
      this.ollama := ollama;
      this.parseCourse := parseCourse;
    }

    /** The courses `index_documents` processes: all of them without a course code, the one
        course with a non-empty code, and an error for a code that is not configured. */
    function SelectCourses(courseCode: Option<string>): (r: Result<seq<Course>>)
      ensures !Truthy(courseCode) ==> r == Success(config.courses)
      ensures Truthy(courseCode) ==>
        (r.Failure? <==> forall k :: 0 <= k < |config.courses| ==> config.courses[k].code != courseCode.value)
      ensures Truthy(courseCode) && r.Failure? ==> r.error == UnknownCoursePrefix + courseCode.value
      ensures Truthy(courseCode) && r.Success? ==>
        |r.value| == 1 && r.value[0].code == courseCode.value && r.value[0] in config.courses
    {
      if !Truthy(courseCode) then Success(config.courses)
      else
        match Lookup(config.courses, courseCode.value)
        case None => Failure(UnknownCoursePrefix + courseCode.value)
        case Some(course) => Success([course])
    }

    /** The rows one course adds: none when parsing fails or finds nothing, or when the insert
        fails; otherwise its documents paired with their embeddings. */
    function CourseRows(course: Course, dataDir: string, contentTypes: seq<string>): seq<Row>
    {
      match parseCourse(course.code, course.name, dataDir, contentTypes)
      case Failure(_) => []
      case Success(docs) =>
        if docs == [] then []
        else
          var batch := Batch(docs, ollama.Embeddings(Texts(docs)));
          if db.insertError(batch).Some? then [] else batch
    }

    /** A course that is stored stores one row per parsed chunk, carrying that chunk's fields, its
        embedding (or the zero fallback) and empty metadata. */
    lemma CourseRowsSpec(course: Course, dataDir: string, contentTypes: seq<string>)
      ensures var parsed := parseCourse(course.code, course.name, dataDir, contentTypes);
        var rows := CourseRows(course, dataDir, contentTypes);
        && (rows != [] ==> parsed.Success? && |rows| == |parsed.value|)
        && (rows != [] ==> forall i :: 0 <= i < |rows| ==>
              rows[i] == MakeRow(parsed.value[i], ollama.EmbeddingOrZero(parsed.value[i].text)))
        && (parsed.Failure? ==> rows == [])
    {
    }

    /** The rows the courses add, course after course. */
    function IndexedRows(courses: seq<Course>, dataDir: string, contentTypes: seq<string>): seq<Row>
      decreases |courses|
    {
      if courses == [] then []
      else
        IndexedRows(courses[..|courses| - 1], dataDir, contentTypes)
        + CourseRows(courses[|courses| - 1], dataDir, contentTypes)
    }

    /** Courses are indexed independently: what a run over two lists of courses adds is what each
        list adds, one after the other. */
    lemma {:induction false} IndexedRowsAppend(a: seq<Course>, b: seq<Course>, dataDir: string,
                                              contentTypes: seq<string>)
      ensures IndexedRows(a + b, dataDir, contentTypes)
        == IndexedRows(a, dataDir, contentTypes) + IndexedRows(b, dataDir, contentTypes)
      decreases |b|
    {
      if b == [] {
        assert a + b == a;
      } else {
        var init := b[..|b| - 1];
        var last := CourseRows(b[|b| - 1], dataDir, contentTypes);
        assert (a + b)[..|a + b| - 1] == a + init;
        assert (a + b)[|a + b| - 1] == b[|b| - 1];
        assert IndexedRows(a + b, dataDir, contentTypes) == IndexedRows(a + init, dataDir, contentTypes) + last;
        IndexedRowsAppend(a, init, dataDir, contentTypes);
        assert IndexedRows(b, dataDir, contentTypes) == IndexedRows(init, dataDir, contentTypes) + last;
        AppendAssoc(IndexedRows(a, dataDir, contentTypes), IndexedRows(init, dataDir, contentTypes), last);
      }
    }

    /** A course whose parsing fails adds nothing, and the courses around it are indexed as if it
        were not there. */
    lemma {:induction false} FailedCourseIsolated(a: seq<Course>, course: Course, b: seq<Course>,
                                                  dataDir: string, contentTypes: seq<string>)
      requires parseCourse(course.code, course.name, dataDir, contentTypes).Failure?
      ensures IndexedRows(a + [course] + b, dataDir, contentTypes) == IndexedRows(a + b, dataDir, contentTypes)
    {
      IndexedRowsAppend(a + [course], b, dataDir, contentTypes);
      IndexedRowsAppend(a, [course], dataDir, contentTypes);
      IndexedRowsAppend(a, b, dataDir, contentTypes);
      assert [course][..0] == [];
      assert IndexedRows([course], dataDir, contentTypes) == [];
      assert IndexedRows(a, dataDir, contentTypes) + [] == IndexedRows(a, dataDir, contentTypes);
    }

    /** `index_documents(course_code, content_types)`. A missing `data_dir` or an unknown course
        code is raised before any course is processed; otherwise every selected course is parsed,
        embedded and inserted, a failing course is skipped, and the result is the number of rows
        stored, the total the source reports. */
    method IndexDocuments(courseCode: Option<string>, contentTypes: Option<seq<string>>) returns (r: Result<nat>)
      modifies db
      ensures config.dataDir.None? ==> r == Failure(KeyErrorMessage("data_dir"))
      ensures config.dataDir.Some? && SelectCourses(courseCode).Failure? ==> r == Failure(SelectCourses(courseCode).error)
      ensures r.Failure? ==> db.rows == old(db.rows)
      ensures r.Success? ==> config.dataDir.Some? && SelectCourses(courseCode).Success?
      ensures r.Success? ==>
        db.rows == old(db.rows) + IndexedRows(SelectCourses(courseCode).value, config.dataDir.value,
                                              ContentTypesOrDefault(contentTypes))
      ensures r.Success? ==>
        r.value == |IndexedRows(SelectCourses(courseCode).value, config.dataDir.value, ContentTypesOrDefault(contentTypes))|
    {
      var types := ContentTypesOrDefault(contentTypes);
      if config.dataDir.None? {
        return Failure(KeyErrorMessage("data_dir"));
      }
      var selected := SelectCourses(courseCode);
      if selected.Failure? {
        return Failure(selected.error);
      }
      var total := IndexCourses(selected.value, config.dataDir.value, types);
      return Success(total);
    }

    /** The course loop of `index_documents`: `total_indexed` grows by a course's batch only once
        its insert has returned. */
    method IndexCourses(courses: seq<Course>, dataDir: string, contentTypes: seq<string>) returns (totalIndexed: nat)
      modifies db
      ensures db.rows == old(db.rows) + IndexedRows(courses, dataDir, contentTypes)
      ensures totalIndexed == |IndexedRows(courses, dataDir, contentTypes)|
    {
      totalIndexed := 0;
      assert courses[..0] == [];
      assert db.rows == db.rows + [];
      for i := 0 to |courses|
        invariant db.rows == old(db.rows) + IndexedRows(courses[..i], dataDir, contentTypes)
        invariant totalIndexed == |IndexedRows(courses[..i], dataDir, contentTypes)|
      {
        IndexedRowsStep(courses, i, dataDir, contentTypes);
        ghost var before := db.rows;
        var added := IndexCourse(courses[i], dataDir, contentTypes);
        AppendAssoc(old(db.rows), IndexedRows(courses[..i], dataDir, contentTypes),
                    CourseRows(courses[i], dataDir, contentTypes));
        totalIndexed := totalIndexed + added;
      }
      assert courses[..|courses|] == courses;
    }

    /** One pass of the course loop: parse, embed, build the batch, insert; any failure is
        caught and adds nothing. Returns how many rows were stored. */
    method IndexCourse(course: Course, dataDir: string, contentTypes: seq<string>) returns (added: nat)
      modifies db
      ensures db.rows == old(db.rows) + CourseRows(course, dataDir, contentTypes)
      ensures added == |CourseRows(course, dataDir, contentTypes)|
    {
      var documents := parseCourse(course.code, course.name, dataDir, contentTypes);
      if documents.Failure? || documents.value == [] {
        assert db.rows == db.rows + [];
        return 0;
      }
      var docs := documents.value;
      var texts := Texts(docs);
      var embeddings := ollama.GenerateEmbeddingsBatch(texts);
      var batchData := BuildBatch(docs, embeddings);
      var error := db.InsertDocumentsBatch(batchData);
      if error.Some? {
        assert db.rows == old(db.rows) + [];
        return 0;
      }
      return |batchData|;
    }

    lemma {:induction false} IndexedRowsStep(courses: seq<Course>, i: nat, dataDir: string, contentTypes: seq<string>)
      requires i < |courses|
      ensures IndexedRows(courses[..i + 1], dataDir, contentTypes)
        == IndexedRows(courses[..i], dataDir, contentTypes) + CourseRows(courses[i], dataDir, contentTypes)
    {
      assert courses[..i + 1][..i] == courses[..i];
    }

    /** The number of chunks to retrieve: the argument when given, the configured `top_k` otherwise. */
    function EffectiveTopK(topK: Option<int>): (r: Result<int>)
      ensures topK.Some? ==> r == Success(topK.value)
      ensures topK.None? && config.topK.Some? ==> r == Success(config.topK.value)
      ensures topK.None? && config.topK.None? ==> r == Failure(KeyErrorMessage("top_k"))
    {
      if topK.Some? then Success(topK.value)
      else if config.topK.Some? then Success(config.topK.value)
      else Failure(KeyErrorMessage("top_k"))
    }

    /** The search results for a question, or the error `query` raises before answering. */
    function Retrieved(question: string, courseCode: Option<string>, topK: Option<int>): (r: Result<seq<SearchResult>>)
      reads db
      ensures r.Success? ==>
        && EffectiveTopK(topK).Success? && config.similarityThreshold.Some?
        && ollama.GenerateEmbedding(question).Success?
        && r == db.search(db.rows, SearchRequest(ollama.GenerateEmbedding(question).value, EffectiveTopK(topK).value,
                                                 courseCode, config.similarityThreshold.value))
      ensures EffectiveTopK(topK).Success? && config.similarityThreshold.Some? && r.Failure? ==>
        QueryFailedPrefix <= r.error
    {
      match EffectiveTopK(topK)
      case Failure(e) => Failure(e)
      case Success(k) =>
        if config.similarityThreshold.None? then Failure(KeyErrorMessage("similarity_threshold"))
        else
          match ollama.GenerateEmbedding(question)
          case Failure(e) => Failure(QueryFailedPrefix + e)
          case Success(embedding) =>
            match db.SimilaritySearch(SearchRequest(embedding, k, courseCode, config.similarityThreshold.value))
            case Failure(e) => Failure(QueryFailedPrefix + e)
            case Success(results) => Success(results)
    }

    /** The completion `query` asks for: the question, the context of the results and the system
        prompt. */
    function Completion(question: string, results: seq<SearchResult>, stream: bool): Result<string>
      requires results != []
    {
      ollama.Completion(question, Some(Context(results)), Some(SystemPrompt), stream)
    }

    /** What `query` returns. */
    function QueryResult(question: string, courseCode: Option<string>, topK: Option<int>, stream: bool)
      : Result<Answer>
      reads db
    {
      match Retrieved(question, courseCode, topK)
      case Failure(e) => Failure(e)
      case Success(results) =>
        if results == [] then Success(Answer(question, NoResultsAnswer, [], false))
        else
          match Completion(question, results, stream)
          case Failure(e) => Failure(QueryFailedPrefix + e)
          case Success(answer) => Success(Answer(question, answer, Sources(results), true))
    }

    /** `query` asks the model for a completion: exactly when the search found something. */
    predicate AsksModel(question: string, courseCode: Option<string>, topK: Option<int>)
      reads db
    {
      Retrieved(question, courseCode, topK).Success? && Retrieved(question, courseCode, topK).value != []
    }

    /** `query(question, course_code, top_k, stream)`. */
    method Query(question: string, courseCode: Option<string>, topK: Option<int>, stream: bool)
      returns (r: Result<Answer>)
      modifies ollama
      ensures r == QueryResult(question, courseCode, topK, stream)
      ensures ollama.completionCalls == old(ollama.completionCalls) + (if AsksModel(question, courseCode, topK) then 1 else 0)
    {
      var k := EffectiveTopK(topK);
      if k.Failure? {
        return Failure(k.error);
      }
      if config.similarityThreshold.None? {
        return Failure(KeyErrorMessage("similarity_threshold"));
      }
      var similarityThreshold := config.similarityThreshold.value;
      var queryEmbedding := ollama.GenerateEmbedding(question);
      if queryEmbedding.Failure? {
        return Failure(QueryFailedPrefix + queryEmbedding.error);
      }
      var results := db.SimilaritySearch(SearchRequest(queryEmbedding.value, k.value, courseCode, similarityThreshold));
      if results.Failure? {
        return Failure(QueryFailedPrefix + results.error);
      }
      if results.value == [] {
        return Success(Answer(question, NoResultsAnswer, [], false));
      }
      var contextParts, sources := BuildContext(results.value);
      var context := Join(contextParts, "\n");
      var answer := ollama.GenerateCompletion(question, Some(context), Some(SystemPrompt), stream);
      if answer.Failure? {
        return Failure(QueryFailedPrefix + answer.error);
      }
      return Success(Answer(question, answer.value, sources, true));
    }

    /** Without results the answer is the fixed one, with no sources and no context, and the model
        is not asked; with results the sources mirror them in order, the context is used, and the
        answer is the model's reply. Every failure after the settings are read carries the
        "Query failed: " prefix. */
    lemma QueryAnswers(question: string, courseCode: Option<string>, topK: Option<int>, stream: bool)
      ensures var r := QueryResult(question, courseCode, topK, stream);
        var retrieved := Retrieved(question, courseCode, topK);
        && (retrieved.Failure? ==> r == Failure(retrieved.error))
        && (retrieved.Success? && retrieved.value == [] ==>
              r == Success(Answer(question, NoResultsAnswer, [], false)) && !AsksModel(question, courseCode, topK))
        && (retrieved.Success? && retrieved.value != [] ==>
              AsksModel(question, courseCode, topK)
              && (r.Success? <==> Completion(question, retrieved.value, stream).Success?)
              && (r.Success? ==>
                    (r.value.contextUsed && r.value.question == question
                     && r.value.answer == Completion(question, retrieved.value, stream).value
                     && r.value.sources == Sources(retrieved.value)))
              && (r.Failure? ==> QueryFailedPrefix <= r.error))
        && (r.Success? ==> (r.value.contextUsed <==> r.value.sources != []))
    {
    }

    /** The configured `top_k` is used only when the caller gives none; the threshold is always
        the configured one. */
    lemma QuerySearchRequest(question: string, courseCode: Option<string>, topK: Option<int>)
      requires Retrieved(question, courseCode, topK).Success?
      ensures topK.Some? ==>
        (Retrieved(question, courseCode, topK)
         == db.search(db.rows, SearchRequest(ollama.GenerateEmbedding(question).value, topK.value, courseCode,
                                             config.similarityThreshold.value)))
      ensures topK.None? ==>
        (config.topK.Some?
         && Retrieved(question, courseCode, topK)
            == db.search(db.rows, SearchRequest(ollama.GenerateEmbedding(question).value, config.topK.value,
                                                courseCode, config.similarityThreshold.value)))
    {
    }

    /** `get_statistics()`: the stored row count, the per-course counts and the number of
        configured courses. */
    function GetStatistics(): (s: Statistics)
      reads db
      ensures s.totalDocuments == |db.rows|
      ensures s.courses == db.summarize(db.rows)
      ensures s.configuredCourses == |config.courses|
    {
      Statistics(|db.rows|, db.summarize(db.rows), |config.courses|)
    }
  }

  /** The content types to index: the given ones, or the default pair. */
  function ContentTypesOrDefault(contentTypes: Option<seq<string>>): seq<string>
  {
    if contentTypes.Some? then contentTypes.value else DefaultContentTypes
  }

  /** The first configured course with this code (configured codes are dictionary keys, so there is
      at most one). */
  function Lookup(courses: seq<Course>, code: string): (r: Option<Course>)
    ensures r.None? <==> forall k :: 0 <= k < |courses| ==> courses[k].code != code
    ensures r.Some? ==> r.value in courses && r.value.code == code
    decreases |courses|
  {
    if courses == [] then None
    else if courses[0].code == code then Some(courses[0])
    else
      var rest := Lookup(courses[1..], code);
      assert forall k :: 1 <= k < |courses| ==> courses[k] == courses[1..][k - 1];
      rest
  }
}
