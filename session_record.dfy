/**
 * StudySessionRecord: the immutable log entry for one completed study block,
 * and its field-by-field JSON encoding.
 */
module SessionRecord {
  import opened Wrappers
  import opened Json

  /**
   * A datatype value, so no field can be reassigned after construction.
   * `id` and `completedAt` are epoch milliseconds.
   */
  datatype Record = Record(
    id: int,
    subject: string,
    studyMinutes: int,
    rewardMinutes: int,
    totalStudySeconds: int,
    completedAt: int)
  {
    /** The Kotlin types of the fields: Long, String, Int, Int, Long, Long. */
    predicate WellTyped() {
      IsLong(id) && IsInt(studyMinutes) && IsInt(rewardMinutes)
      && IsLong(totalStudySeconds) && IsLong(completedAt)
    }
  }

  /** The six keys a serialised record holds. */
  const RecordKeys: set<string> :=
    {"id", "subject", "studyMinutes", "rewardMinutes", "totalStudySeconds", "completedAt"}

  /** `toJson`: one key per field, each holding that field's value. */
  function ToJson(r: Record): (o: Object)
    ensures o.Keys == RecordKeys
    ensures o["id"] == Number(r.id) && o["subject"] == Text(r.subject)
    ensures o["studyMinutes"] == Number(r.studyMinutes)
    ensures o["rewardMinutes"] == Number(r.rewardMinutes)
    ensures o["totalStudySeconds"] == Number(r.totalStudySeconds)
    ensures o["completedAt"] == Number(r.completedAt)
  {
    map[
      "id" := Number(r.id),
      "subject" := Text(r.subject),
      "studyMinutes" := Number(r.studyMinutes),
      "rewardMinutes" := Number(r.rewardMinutes),
      "totalStudySeconds" := Number(r.totalStudySeconds),
      "completedAt" := Number(r.completedAt)]
  }

  /** The keys `fromJson` reads as numbers; the sixth, "subject", is read as a string. */
  const NumberKeys: set<string> :=
    {"id", "studyMinutes", "rewardMinutes", "totalStudySeconds", "completedAt"}

  /** Every field can be read: each number key holds a number and "subject" a string. */
  predicate Readable(o: Object) {
    (forall k :: k in NumberKeys ==> k in o && o[k].Number?)
    && "subject" in o && o["subject"].Text?
  }

  /**
   * `fromJson`: reads the six keys in order; the first missing or mistyped
   * key is the exception it throws.
   */
  function FromJson(o: Object): (r: Result<Record, Error>)
    ensures r.Ok? <==> Readable(o)
    ensures r.Err? ==> r.error.Key() in RecordKeys && (r.error.MissingKey? <==> r.error.Key() !in o)
    ensures r.Ok? ==> r.value.WellTyped()
  {
    var id :- GetLong(o, "id");
    var subject :- GetString(o, "subject");
    var studyMinutes :- GetInt(o, "studyMinutes");
    var rewardMinutes :- GetInt(o, "rewardMinutes");
    var totalStudySeconds :- GetLong(o, "totalStudySeconds");
    var completedAt :- GetLong(o, "completedAt");
    Ok(Record(id, subject, studyMinutes, rewardMinutes, totalStudySeconds, completedAt))
  }

  /** Decoding what was encoded gives the record back. */
  lemma RoundTrip(r: Record)
    requires r.WellTyped()
    ensures FromJson(ToJson(r)) == Ok(r)
  {
  }

  /** A missing key is a failure, whichever of the six it is. */
  lemma MissingKeyFails(o: Object, k: string)
    requires k in RecordKeys && k !in o
    ensures FromJson(o).Err?
  {
  }

  /** Keys other than the six do not affect decoding. */
  lemma ExtraKeysIgnored(o: Object, extra: Object)
    requires extra.Keys !! RecordKeys
    ensures FromJson(o + extra) == FromJson(o)
  {
    var oe := o + extra;
    assert forall k :: k in RecordKeys ==> (k in oe <==> k in o) && (k in o ==> oe[k] == o[k]);
  }

  /** Distinct well-typed records have distinct encodings. */
  lemma ToJsonInjective(r1: Record, r2: Record)
    requires r1.WellTyped() && r2.WellTyped() && ToJson(r1) == ToJson(r2)
    ensures r1 == r2
  {
    RoundTrip(r1);
    RoundTrip(r2);
  }
}
