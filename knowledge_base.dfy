/**
 * The knowledge-base helpers of app.py: the two lazily loaded handles
 * (`load_db` for the question-answering chain, `load_vectordb` for the vector
 * store), the numbered listing that `search_knowledgebase` builds from the
 * retrieved documents, and the fixed texts the helpers return instead of
 * raising. The retrieval libraries are outside the model: what a call into
 * them returns or raises is a parameter.
 */
module KnowledgeBase {
  import opened Wrappers

  /** What a call into the retrieval libraries does: returns a value, or raises an exception whose text is `error`. */
  datatype Attempt<T> = Returned(value: T) | Raised(error: string)

  const UnavailableText := "Knowledge base not available. " + "Please ensure the 'content/db' folder exists."
  const NoSourcesText := "No sources found."
  const ErrorPrefix := "Error: "
  const SourcePrefix := "Source "

  /** The text a helper returns for an exception it catches. */
  function ErrorText(error: string): (text: string)
    ensures |text| == |ErrorPrefix| + |error|
    ensures text[..|ErrorPrefix|] == ErrorPrefix && text[|ErrorPrefix|..] == error
  {
    ErrorPrefix + error
  }

  // Decimal numerals, as Python's `str` writes a non-negative integer.

  function DigitChar(d: nat): (c: char)
    requires d < 10
    ensures '0' <= c <= '9'
  {
    ('0' as int + d) as char
  }

  function DigitValue(c: char): nat {
    if '0' <= c <= '9' then c as int - '0' as int else 0
  }

  function Decimal(n: nat): (s: string)
    ensures s != []
    ensures forall i :: 0 <= i < |s| ==> '0' <= s[i] <= '9'
  {
    if n < 10 then [DigitChar(n)] else Decimal(n / 10) + [DigitChar(n % 10)]
  }

  /** Reads a string of decimal digits back as a number. */
  function DecimalValue(s: string): nat {
    if s == [] then 0 else 10 * DecimalValue(s[..|s| - 1]) + DigitValue(s[|s| - 1])
  }

  /** The numeral is all digits, has no leading zero, and reads back as the number it was written from. */
  lemma {:induction false} DecimalRoundTrip(n: nat)
    ensures Decimal(n)[0] == '0' <==> n == 0
    ensures DecimalValue(Decimal(n)) == n
    decreases n
  {
    if n >= 10 {
      var s := Decimal(n / 10);
      DecimalRoundTrip(n / 10);
      assert Decimal(n) == s + [DigitChar(n % 10)];
      assert Decimal(n)[..|Decimal(n)| - 1] == s;
    }
  }

  // The source listing.

  /** One entry of the listing: a numbered header line, the document text and a blank line. */
  function SourceBlock(count: nat, content: string): (b: string)
    ensures var h := |SourcePrefix| + |Decimal(count)|;
      && |b| == h + 1 + |content| + 2
      && b[..|SourcePrefix|] == SourcePrefix
      && b[|SourcePrefix|..h] == Decimal(count)
      && b[h] == '\n'
      && b[h + 1..|b| - 2] == content
      && b[|b| - 2..] == "\n\n"
  {
    SourcePrefix + Decimal(count) + "\n" + content + "\n\n"
  }

  /** The blocks of `docs` in order, numbered from `start`. */
  function ListingFrom(docs: seq<string>, start: nat): (r: string)
    ensures r == [] <==> docs == []
    decreases |docs|
  {
    if docs == [] then "" else SourceBlock(start, docs[0]) + ListingFrom(docs[1..], start + 1)
  }

  /** The listing of the retrieved documents, numbered from 1. */
  function Listing(docs: seq<string>): (r: string)
    ensures r == [] <==> docs == []
  {
    ListingFrom(docs, 1)
  }

  /** Adding one more document adds its block, with the next number, at the end. */
  lemma {:induction false} ListingExtend(docs: seq<string>, doc: string, start: nat)
    ensures ListingFrom(docs + [doc], start) == ListingFrom(docs, start) + SourceBlock(start + |docs|, doc)
    decreases |docs|
  {
    if docs == [] {
      assert ListingFrom([doc], start) == SourceBlock(start, doc) + ListingFrom([], start + 1);
    } else {
      assert (docs + [doc])[1..] == docs[1..] + [doc];
      ListingExtend(docs[1..], doc, start + 1);
    }
  }

  /** A non-empty listing starts with the header of its first block. */
  lemma ListingStartsWithSource(docs: seq<string>)
    requires docs != []
    ensures |Listing(docs)| > |SourcePrefix| && Listing(docs)[..|SourcePrefix|] == SourcePrefix
  {
    var b := SourceBlock(1, docs[0]);
    assert b == SourcePrefix + (Decimal(1) + "\n" + docs[0] + "\n\n");
    assert Listing(docs) == b + ListingFrom(docs[1..], 2);
  }

  /** The loop of `search_knowledgebase`: `sources` grows by one block per document, counting from 1. */
  method FormatSources(docs: seq<string>) returns (sources: string)
    ensures sources == Listing(docs)
  {
    sources := "";
    var i := 0;
    while i < |docs|
      invariant 0 <= i <= |docs|
      invariant sources == ListingFrom(docs[..i], 1)
    {
      var count := i + 1;
      ListingExtend(docs[..i], docs[i], 1);
      assert docs[..i + 1] == docs[..i] + [docs[i]];
      sources := sources + SourceBlock(count, docs[i]);
      i := i + 1;
    }
    assert docs[..i] == docs;
  }

  // What the helpers return.

  /**
   * `search_knowledgebase` once the store is loaded or not: without a store
   * there is no search and the fixed notice is returned; a raised exception
   * becomes its error text; no documents give the fixed notice; otherwise the
   * listing.
   */
  function SearchText<V>(store: Option<V>, message: string, search: (V, string) -> Attempt<seq<string>>): (text: string)
    ensures store.None? ==> text == UnavailableText
    ensures store.Some? ==> var a := search(store.value, message);
      && (a.Raised? ==> text == ErrorText(a.error))
      && (a.Returned? ==> text == if a.value == [] then NoSourcesText else Listing(a.value))
  {
    match store
    case None => UnavailableText
    case Some(vdb) =>
      match search(vdb, message)
      case Raised(e) => ErrorText(e)
      case Returned(docs) => if docs == [] then NoSourcesText else Listing(docs)
  }

  /** `answer_from_knowledgebase` once the chain is loaded or not. */
  function AnswerText<Q>(chain: Option<Q>, message: string, invoke: (Q, string) -> Attempt<string>): (text: string)
    ensures chain.None? ==> text == UnavailableText
    ensures chain.Some? ==> var a := invoke(chain.value, message);
      && (a.Raised? ==> text == ErrorText(a.error))
      && (a.Returned? ==> text == a.value)
  {
    match chain
    case None => UnavailableText
    case Some(qa) =>
      match invoke(qa, message)
      case Raised(e) => ErrorText(e)
      case Returned(result) => result
  }

  /** `answer_as_chatbot`, of which only the exception handler is modelled: the prediction is given. */
  function ChatbotText(prediction: Attempt<string>): (text: string)
    ensures prediction.Returned? ==> text == prediction.value
    ensures prediction.Raised? ==> text == ErrorText(prediction.error)
  {
    match prediction
    case Raised(e) => ErrorText(e)
    case Returned(response) => response
  }

  /** What a reply of `search_knowledgebase` says, read off its text alone. */
  datatype SearchKind = Sources | NoSources | Unavailable | Failed

  function KindOf(text: string): SearchKind {
    if |text| >= |SourcePrefix| && text[..|SourcePrefix|] == SourcePrefix then Sources
    else if text == NoSourcesText then NoSources
    else if text == UnavailableText then Unavailable
    else Failed
  }

  /**
   * The four outcomes of a search give texts that cannot be mistaken for one
   * another: a listing starts with "Source ", an exception with "Error: ", and
   * the two notices are fixed texts.
   */
  lemma SearchTextIsUnambiguous<V>(store: Option<V>, message: string, search: (V, string) -> Attempt<seq<string>>)
    ensures var text := SearchText(store, message, search);
      KindOf(text) ==
        match store
        case None => Unavailable
        case Some(vdb) =>
          match search(vdb, message)
          case Raised(_) => Failed
          case Returned(docs) => if docs == [] then NoSources else Sources
  {
    assert NoSourcesText[0] == 'N' && UnavailableText[0] == 'K' && SourcePrefix[0] == 'S';
    assert KindOf(NoSourcesText) == NoSources;
    assert KindOf(UnavailableText) == Unavailable;
    if store.Some? {
      match search(store.value, message)
      case Raised(e) =>
        var text := ErrorText(e);
        assert text[0] == 'E';
        assert KindOf(text) == Failed;
      case Returned(docs) =>
        if docs != [] {
          ListingStartsWithSource(docs);
        }
    }
  }

  // The lazily loaded handles.

  /**
   * A module-global handle that starts unset and is set by the first load that
   * succeeds (`load_db` for `qa`, `load_vectordb` for `vectordb`). `opens`
   * counts the loads that tried to build the handle.
   */
  class LazyLoader<T> {
    var cached: Option<T>
    ghost var opens: nat

    constructor ()
      ensures cached == None && opens == 0
    {
      cached := None;
      opens := 0;
    }

    /**
     * A set handle is returned as it is and nothing is built. Otherwise one
     * build is tried: its value is stored and returned, or its exception is
     * swallowed, `None` is returned and the handle stays unset for a later retry.
     */
    method Load(build: Attempt<T>) returns (handle: Option<T>)
      modifies this
      ensures LoadedOnce(this, build)
      ensures handle == cached
    {
      if cached.Some? {
        return cached;
      }
      opens := opens + 1;
      match build
      case Returned(value) =>
        cached := Some(value);
        handle := cached;
      case Raised(_) =>
        handle := None;
    }
  }

  /**
   * What one load does to a handle: a set handle stays as it was and nothing
   * is built; an unset one is built once and is set exactly when that build
   * returned.
   */
  twostate predicate LoadedOnce<T>(loader: LazyLoader<T>, build: Attempt<T>)
    reads loader
  {
    && (old(loader.cached).Some? ==> loader.cached == old(loader.cached) && loader.opens == old(loader.opens))
    && (old(loader.cached).None? ==> loader.opens == old(loader.opens) + 1)
    && (old(loader.cached).None? ==> loader.cached == if build.Returned? then Some(build.value) else None)
  }

  /** `search_knowledgebase`: loads the store (or reuses it) and searches it with `message`. */
  method SearchKnowledgebase<V>(vectordb: LazyLoader<V>, build: Attempt<V>, message: string,
                                search: (V, string) -> Attempt<seq<string>>) returns (text: string)
    modifies vectordb
    ensures LoadedOnce(vectordb, build)
    ensures text == SearchText(vectordb.cached, message, search)
  {
    var vdb := vectordb.Load(build);
    if vdb.None? {
      return UnavailableText;
    }
    match search(vdb.value, message)
    case Raised(e) =>
      text := ErrorText(e);
    case Returned(docs) =>
      if docs == [] {
        text := NoSourcesText;
      } else {
        text := FormatSources(docs);
      }
  }

  /** `answer_from_knowledgebase`: loads the chain (or reuses it) and asks it `message`. */
  method AnswerFromKnowledgebase<Q>(qa: LazyLoader<Q>, build: Attempt<Q>, message: string,
                                    invoke: (Q, string) -> Attempt<string>) returns (text: string)
    modifies qa
    ensures LoadedOnce(qa, build)
    ensures text == AnswerText(qa.cached, message, invoke)
  {
    var chain := qa.Load(build);
    if chain.None? {
      return UnavailableText;
    }
    match invoke(chain.value, message)
    case Raised(e) =>
      text := ErrorText(e);
    case Returned(result) =>
      text := result;
  }
}
