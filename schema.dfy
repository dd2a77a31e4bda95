/**
 * The record shapes of the `users` and `speech_requests` tables, and the
 * object spread `{ ...existing, ...updates }` the store uses to merge a
 * partial record into an existing one.
 */
module Schema {
  import opened Wrappers

  /** The body fields a user account is created from. */
  datatype InsertUser = InsertUser(username: string, password: string)

  datatype User = User(id: int, username: string, password: string)

  /**
   * The five fields of a speech request as validated from the request body;
   * `background` is the only nullable one (absent and `null` are both `None`).
   */
  datatype InsertSpeechRequest = InsertSpeechRequest(
    name: string,
    identity: string,
    background: Option<string>,
    whatYouDo: string,
    motivation: string)

  /** A stored speech request; the generation results stay `None` until attached. */
  datatype SpeechRequest = SpeechRequest(
    id: int,
    name: string,
    identity: string,
    background: Option<string>,
    whatYouDo: string,
    motivation: string,
    generatedSpeech: Option<string>,
    wordCount: Option<int>)

  /** `Partial<SpeechRequest>`: every field may be left out (`None`) or supplied (`Some`). */
  datatype SpeechRequestPatch = SpeechRequestPatch(
    id: Option<int>,
    name: Option<string>,
    identity: Option<string>,
    background: Option<Option<string>>,
    whatYouDo: Option<string>,
    motivation: Option<string>,
    generatedSpeech: Option<Option<string>>,
    wordCount: Option<Option<int>>)

  const NoChanges := SpeechRequestPatch(None, None, None, None, None, None, None, None)

  /** The patch the route handler applies once a speech has been generated. */
  function GenerationResult(speech: string, wordCount: int): SpeechRequestPatch {
    NoChanges.(generatedSpeech := Some(Some(speech)), wordCount := Some(Some(wordCount)))
  }

  function Pick<T>(supplied: Option<T>, existing: T): T {
    if supplied.Some? then supplied.value else existing
  }

  /** `{ ...existing, ...updates }`: supplied fields win, the others are kept. */
  function Merge(existing: SpeechRequest, updates: SpeechRequestPatch): (r: SpeechRequest)
    ensures SuppliedWin(updates, r) && OthersKept(existing, updates, r)
  {
    SpeechRequest(
      Pick(updates.id, existing.id),
      Pick(updates.name, existing.name),
      Pick(updates.identity, existing.identity),
      Pick(updates.background, existing.background),
      Pick(updates.whatYouDo, existing.whatYouDo),
      Pick(updates.motivation, existing.motivation),
      Pick(updates.generatedSpeech, existing.generatedSpeech),
      Pick(updates.wordCount, existing.wordCount))
  }

  /** Every field the patch supplies has the supplied value in `r`. */
  predicate SuppliedWin(updates: SpeechRequestPatch, r: SpeechRequest) {
    && (updates.id.Some? ==> r.id == updates.id.value)
    && (updates.name.Some? ==> r.name == updates.name.value)
    && (updates.identity.Some? ==> r.identity == updates.identity.value)
    && (updates.background.Some? ==> r.background == updates.background.value)
    && (updates.whatYouDo.Some? ==> r.whatYouDo == updates.whatYouDo.value)
    && (updates.motivation.Some? ==> r.motivation == updates.motivation.value)
    && (updates.generatedSpeech.Some? ==> r.generatedSpeech == updates.generatedSpeech.value)
    && (updates.wordCount.Some? ==> r.wordCount == updates.wordCount.value)
  }

  /** Every field the patch leaves out has its existing value in `r`. */
  predicate OthersKept(existing: SpeechRequest, updates: SpeechRequestPatch, r: SpeechRequest) {
    && (updates.id.None? ==> r.id == existing.id)
    && (updates.name.None? ==> r.name == existing.name)
    && (updates.identity.None? ==> r.identity == existing.identity)
    && (updates.background.None? ==> r.background == existing.background)
    && (updates.whatYouDo.None? ==> r.whatYouDo == existing.whatYouDo)
    && (updates.motivation.None? ==> r.motivation == existing.motivation)
    && (updates.generatedSpeech.None? ==> r.generatedSpeech == existing.generatedSpeech)
    && (updates.wordCount.None? ==> r.wordCount == existing.wordCount)
  }

  /** The merge is the only record in which supplied fields win and the others are kept. */
  lemma MergeUnique(existing: SpeechRequest, updates: SpeechRequestPatch, r: SpeechRequest)
    requires SuppliedWin(updates, r) && OthersKept(existing, updates, r)
    ensures r == Merge(existing, updates)
  {
  }

  /** The five validated fields of a stored request. */
  function InsertFields(r: SpeechRequest): InsertSpeechRequest {
    InsertSpeechRequest(r.name, r.identity, r.background, r.whatYouDo, r.motivation)
  }

  /** `{ ...insertRequest, id, generatedSpeech: null, wordCount: null }`. */
  function NewSpeechRequest(insert: InsertSpeechRequest, id: int): (r: SpeechRequest)
    ensures InsertFields(r) == insert && r.id == id
    ensures r.generatedSpeech.None? && r.wordCount.None?
  {
    SpeechRequest(id, insert.name, insert.identity, insert.background, insert.whatYouDo,
                  insert.motivation, None, None)
  }

  /** The results of generation are attached together or not at all. */
  predicate ResultsPaired(r: SpeechRequest) {
    r.generatedSpeech.Some? <==> r.wordCount.Some?
  }

  /** Spreading the generation result sets both result fields and changes nothing else. */
  lemma GenerationResultAttaches(r: SpeechRequest, speech: string, wordCount: int)
    ensures Merge(r, GenerationResult(speech, wordCount)) ==
            r.(generatedSpeech := Some(speech), wordCount := Some(wordCount))
    ensures ResultsPaired(Merge(r, GenerationResult(speech, wordCount)))
  {
  }

  /** Spreading a later patch over an earlier one is spreading their combination. */
  lemma MergeTwice(r: SpeechRequest, p: SpeechRequestPatch, q: SpeechRequestPatch)
    ensures Merge(Merge(r, p), q) == Merge(r, Combine(p, q))
  {
  }

  /** `{ ...p, ...q }` on two patches. */
  function Combine(p: SpeechRequestPatch, q: SpeechRequestPatch): SpeechRequestPatch {
    SpeechRequestPatch(
      if q.id.Some? then q.id else p.id,
      if q.name.Some? then q.name else p.name,
      if q.identity.Some? then q.identity else p.identity,
      if q.background.Some? then q.background else p.background,
      if q.whatYouDo.Some? then q.whatYouDo else p.whatYouDo,
      if q.motivation.Some? then q.motivation else p.motivation,
      if q.generatedSpeech.Some? then q.generatedSpeech else p.generatedSpeech,
      if q.wordCount.Some? then q.wordCount else p.wordCount)
  }
}
