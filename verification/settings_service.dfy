/**
 * The settings service: normalisation of a partial settings record, and
 * loading and saving the single settings document of its collection.
 */
module SettingsService {
  import opened Wrappers
  import opened JsStrings

  /** A field value of a stored record, as far as the settings care. */
  datatype Value = Bool(b: bool) | Str(s: string) | Other

  /** A stored document or a partial settings object: field name to value. */
  type Record = map<string, Value>

  datatype CopyMode = SingleTap | DoubleTap

  datatype AppSettings = AppSettings(enablePin: bool, copyMode: CopyMode)

  const SETTINGS_ID := "app-settings"

  const DefaultSettings := AppSettings(true, SingleTap)

  function CopyModeName(c: CopyMode): (r: string)
    ensures r == "double-tap" <==> c == DoubleTap
  {
    match c
    case SingleTap => "single-tap"
    case DoubleTap => "double-tap"
  }

  /**
   * `normalizeSettings`: a boolean `enablePin` is kept, anything else
   * gives the default; `copyMode` is double-tap only for that exact string.
   */
  function NormalizeSettings(data: Record): (r: AppSettings)
    ensures ("enablePin" in data && data["enablePin"].Bool?) ==> r.enablePin == data["enablePin"].b
    ensures !("enablePin" in data && data["enablePin"].Bool?) ==> r.enablePin == DefaultSettings.enablePin
    ensures r.copyMode == DoubleTap <==> ("copyMode" in data && data["copyMode"] == Str("double-tap"))
  {
    AppSettings(
      if "enablePin" in data && data["enablePin"].Bool? then data["enablePin"].b else DefaultSettings.enablePin,
      if "copyMode" in data && data["copyMode"] == Str("double-tap") then DoubleTap else DefaultSettings.copyMode)
  }

  /** The settings written out as the two fields of a record. */
  function ToRecord(s: AppSettings): (r: Record)
    ensures r.Keys == {"enablePin", "copyMode"}
    ensures r["enablePin"] == Bool(s.enablePin) && r["copyMode"] == Str(CopyModeName(s.copyMode))
  {
    map["enablePin" := Bool(s.enablePin), "copyMode" := Str(CopyModeName(s.copyMode))]
  }

  /** Normalising settings written as a record gives them back. */
  lemma NormalizeToRecord(s: AppSettings)
    ensures NormalizeSettings(ToRecord(s)) == s
  {
  }

  /** Normalisation looks at the two settings fields only. */
  lemma NormalizeIgnoresOtherFields(r: Record, f: string, v: Value)
    requires f != "enablePin" && f != "copyMode"
    ensures NormalizeSettings(r[f := v]) == NormalizeSettings(r)
  {
  }

  /** Normalisation is idempotent. */
  lemma NormalizeIdempotent(data: Record)
    ensures NormalizeSettings(ToRecord(NormalizeSettings(data))) == NormalizeSettings(data)
  {
    NormalizeToRecord(NormalizeSettings(data));
  }

  /** A record with no usable field normalises to the defaults. */
  lemma NormalizeEmpty()
    ensures NormalizeSettings(map[]) == DefaultSettings
  {
  }

  /** A document of the settings collection that `find({id})` matches. */
  predicate IsSettingsDoc(r: Record) {
    "id" in r && r["id"] == Str(SETTINGS_ID)
  }

  /** `String(_id || '')` for a string `_id`: the store key, or "" when it is missing. */
  function Key(r: Record): (k: string)
    ensures ("_id" in r && r["_id"].Str?) ==> k == r["_id"].s
  {
    if "_id" in r && r["_id"].Str? then r["_id"].s else ""
  }

  /** Every stored document carries its own store key as `_id`. */
  ghost predicate KeyedRecords(m: map<string, Record>) {
    forall k | k in m :: "_id" in m[k] && m[k]["_id"] == Str(k)
  }

  ghost predicate HasSettingsDoc(m: map<string, Record>) {
    exists k | k in m :: IsSettingsDoc(m[k])
  }

  ghost predicate AtMostOneSettingsDoc(m: map<string, Record>) {
    forall k1, k2 | k1 in m && k2 in m && IsSettingsDoc(m[k1]) && IsSettingsDoc(m[k2]) :: k1 == k2
  }

  /** `k` is the settings document with the greatest key. */
  ghost predicate IsLatestSettings(m: map<string, Record>, k: string) {
    && k in m && IsSettingsDoc(m[k])
    && forall k' | k' in m && IsSettingsDoc(m[k']) && k' != k :: StrLess(k', k)
  }

  /**
   * What `loadSettings` may return on a successful read: the defaults
   * without a settings document, else the latest one normalised.
   */
  ghost predicate LoadsAs(m: map<string, Record>, s: AppSettings) {
    && (!HasSettingsDoc(m) ==> s == DefaultSettings)
    && (HasSettingsDoc(m) ==> exists k :: IsLatestSettings(m, k) && s == NormalizeSettings(m[k]))
  }

  /** There is only one latest settings document. */
  lemma LatestUnique(m: map<string, Record>, k1: string, k2: string)
    requires IsLatestSettings(m, k1) && IsLatestSettings(m, k2)
    ensures k1 == k2
  {
    if k1 != k2 {
      assert StrLess(k1, k2) && StrLess(k2, k1);
      StrLessTransitive(k1, k2, k1);
      StrLessIrreflexive(k1);
    }
  }

  /** The outcome of a load is determined by the collection. */
  lemma LoadsAsUnique(m: map<string, Record>, s1: AppSettings, s2: AppSettings)
    requires LoadsAs(m, s1) && LoadsAs(m, s2)
    ensures s1 == s2
  {
    if HasSettingsDoc(m) {
      var k1 :| IsLatestSettings(m, k1) && s1 == NormalizeSettings(m[k1]);
      var k2 :| IsLatestSettings(m, k2) && s2 == NormalizeSettings(m[k2]);
      LatestUnique(m, k1, k2);
    }
  }

  /**
   * The document the descending sort by key puts first: the first one
   * among those with the greatest key.
   */
  function LatestIndex(s: seq<Record>): (i: nat)
    requires |s| > 0
    ensures i < |s|
  {
    if |s| == 1 then 0
    else
      var i := LatestIndex(s[..|s| - 1]);
      if StrLess(Key(s[i]), Key(s[|s| - 1])) then |s| - 1 else i
  }

  /** No document has a greater key than `s[i]`, and every earlier one a smaller key. */
  ghost predicate MaxAt(s: seq<Record>, i: int) {
    && 0 <= i < |s|
    && (forall j | 0 <= j < |s| :: !StrLess(Key(s[i]), Key(s[j])))
    && (forall j | 0 <= j < i :: StrLess(Key(s[j]), Key(s[i])))
  }

  /** The document the descending sort puts first has the greatest key, and the earlier ones smaller keys. */
  lemma {:induction false} LatestIndexIsMax(s: seq<Record>)
    requires |s| > 0
    ensures MaxAt(s, LatestIndex(s))
  {
    if |s| > 1 {
      var p, x := s[..|s| - 1], s[|s| - 1];
      LatestIndexIsMax(p);
      assert s == p + [x];
      if StrLess(Key(p[LatestIndex(p)]), Key(x)) {
        MaxExtendAbove(p, LatestIndex(p), x);
      } else {
        MaxExtendBelow(p, LatestIndex(p), x);
      }
    } else {
      StrLessIrreflexive(Key(s[0]));
    }
  }

  /** A record whose key is above the maximum becomes the new maximum. */
  lemma MaxExtendAbove(p: seq<Record>, i: int, x: Record)
    requires MaxAt(p, i) && StrLess(Key(p[i]), Key(x))
    ensures MaxAt(p + [x], |p|)
  {
    var s := p + [x];
    AboveMaxIsMax(p, i, Key(x));
    assert forall j | 0 <= j < |p| :: s[j] == p[j];
  }

  /** A record whose key is not above the maximum leaves it in place. */
  lemma MaxExtendBelow(p: seq<Record>, i: int, x: Record)
    requires MaxAt(p, i) && !StrLess(Key(p[i]), Key(x))
    ensures MaxAt(p + [x], i)
  {
    var s := p + [x];
    assert forall j | 0 <= j < |p| :: s[j] == p[j];
  }

  /**
   * A key above the maximum `p[i]` of a sequence is strictly above every
   * key of it, and no key of it is above the new one.
   */
  lemma AboveMaxIsMax(p: seq<Record>, i: int, t: string)
    requires 0 <= i < |p| && StrLess(Key(p[i]), t)
    requires forall j | 0 <= j < |p| :: !StrLess(Key(p[i]), Key(p[j]))
    ensures forall j | 0 <= j < |p| :: StrLess(Key(p[j]), t) && !StrLess(t, Key(p[j]))
    ensures !StrLess(t, t)
  {
    StrLessIrreflexive(t);
    forall j | 0 <= j < |p| ensures StrLess(Key(p[j]), t) && !StrLess(t, Key(p[j])) {
      var k, m := Key(p[j]), Key(p[i]);
      StrLessTotal(k, m);
      if k != m {
        StrLessTransitive(k, m, t);
      }
      if StrLess(t, k) {
        StrLessTransitive(t, k, t);
      }
    }
  }

  /** `s` lists each settings document of `m` exactly once. */
  ghost predicate ListsSettings(s: seq<Record>, m: map<string, Record>) {
    && (forall i | 0 <= i < |s| :: Key(s[i]) in m && m[Key(s[i])] == s[i] && IsSettingsDoc(s[i]))
    && (forall i, j | 0 <= i < j < |s| :: Key(s[i]) != Key(s[j]))
    && (forall k | k in m && IsSettingsDoc(m[k]) :: exists i | 0 <= i < |s| :: Key(s[i]) == k)
  }

  /** An empty listing means there is no settings document. */
  lemma EmptyListing(s: seq<Record>, m: map<string, Record>)
    requires ListsSettings(s, m) && |s| == 0
    ensures !HasSettingsDoc(m)
  {
    forall k | k in m ensures !IsSettingsDoc(m[k]) {
    }
  }

  /** The listing's latest document is the collection's latest settings document. */
  lemma LatestOfListing(s: seq<Record>, m: map<string, Record>)
    requires ListsSettings(s, m) && |s| > 0
    ensures IsLatestSettings(m, Key(s[LatestIndex(s)]))
  {
    var i := LatestIndex(s);
    var k := Key(s[i]);
    LatestIndexIsMax(s);
    forall k' | k' in m && IsSettingsDoc(m[k']) && k' != k ensures StrLess(k', k) {
      var j :| 0 <= j < |s| && Key(s[j]) == k';
      StrLessTotal(k', k);
    }
  }

  /**
   * The record `saveSettings` writes over `base`: the base's fields, then
   * the normalised settings, then the fixed id.
   */
  function SavedRecord(base: Record, partial: Record): (r: Record)
    ensures IsSettingsDoc(r)
    ensures NormalizeSettings(r) == NormalizeSettings(partial)
    ensures r.Keys == base.Keys + {"enablePin", "copyMode", "id"}
    ensures forall f | f in base && f !in {"enablePin", "copyMode", "id"} :: r[f] == base[f]
    ensures "_id" in base ==> r["_id"] == base["_id"]
    ensures var n := NormalizeSettings(partial);
      && r["enablePin"] == Bool(n.enablePin)
      && r["copyMode"] == Str(CopyModeName(n.copyMode))
      && r["id"] == Str(SETTINGS_ID)
  {
    assert "_id" != "enablePin" && "_id" != "copyMode" && "_id" != "id";
    base + ToRecord(NormalizeSettings(partial)) + map["id" := Str(SETTINGS_ID)]
  }

  /**
   * What a successful `saveSettings` may leave behind: without a settings
   * document a new one under the fresh key; otherwise some settings
   * document (the first the store lists) rewritten in place.
   */
  ghost predicate SavedFrom(m: map<string, Record>, m': map<string, Record>, partial: Record, freshKey: string) {
    && (!HasSettingsDoc(m) ==> m' == m[freshKey := SavedRecord(map[], partial)["_id" := Str(freshKey)]])
    && (HasSettingsDoc(m) ==>
          exists k | k in m && IsSettingsDoc(m[k]) :: m' == m[k := SavedRecord(m[k], partial)])
  }

  /** Saving keeps every document carrying its key. */
  lemma SavePreservesKeys(m: map<string, Record>, m': map<string, Record>, partial: Record, freshKey: string)
    requires KeyedRecords(m) && SavedFrom(m, m', partial, freshKey)
    ensures KeyedRecords(m')
  {
    if HasSettingsDoc(m) {
      var w :| w in m && IsSettingsDoc(m[w]) && m' == m[w := SavedRecord(m[w], partial)];
      forall k | k in m' ensures "_id" in m'[k] && m'[k]["_id"] == Str(k) {
        if k == w {
          assert m'[k]["_id"] == m[k]["_id"];
        }
      }
    }
  }

  /**
   * With at most one settings document, a save is seen by the next load,
   * and there is still at most one settings document afterwards.
   */
  lemma SaveThenLoad(m: map<string, Record>, m': map<string, Record>, partial: Record, freshKey: string, s: AppSettings)
    requires AtMostOneSettingsDoc(m)
    requires SavedFrom(m, m', partial, freshKey)
    requires LoadsAs(m', s)
    ensures s == NormalizeSettings(partial)
    ensures AtMostOneSettingsDoc(m')
    ensures HasSettingsDoc(m')
  {
    if HasSettingsDoc(m) {
      var w :| w in m && IsSettingsDoc(m[w]) && m' == m[w := SavedRecord(m[w], partial)];
      forall k | k in m' && k != w ensures !IsSettingsDoc(m'[k]) {
        assert k in m && m'[k] == m[k];
      }
      LoadOnlySettingsDoc(m', w, s);
    } else {
      NormalizeIgnoresOtherFields(SavedRecord(map[], partial), "_id", Str(freshKey));
      forall k | k in m' && k != freshKey ensures !IsSettingsDoc(m'[k]) {
        assert k in m && m'[k] == m[k];
      }
      LoadOnlySettingsDoc(m', freshKey, s);
    }
  }

  /** A store whose only settings document is under `w` loads as that document. */
  lemma LoadOnlySettingsDoc(m: map<string, Record>, w: string, s: AppSettings)
    requires w in m && IsSettingsDoc(m[w])
    requires forall k | k in m && k != w :: !IsSettingsDoc(m[k])
    requires LoadsAs(m, s)
    ensures AtMostOneSettingsDoc(m) && HasSettingsDoc(m)
    ensures s == NormalizeSettings(m[w])
  {
    var k :| IsLatestSettings(m, k) && s == NormalizeSettings(m[k]);
  }

  datatype SettingsError = StoreFailed

  /** The settings collection: documents by their store key. */
  class SettingsRepository {
    var docs: map<string, Record>

    ghost predicate Valid()
      reads this
    {
      KeyedRecords(docs)
    }

    constructor ()
      ensures Valid() && docs == map[]
    {
      docs := map[];
    }

    /** `find({id}).fetch()`: the settings documents, in an order the store picks. */
    method FindSettings() returns (s: seq<Record>)
      requires Valid()
      ensures ListsSettings(s, docs)
    {
      s := [];
      var remaining := docs.Keys;
      while remaining != {}
        invariant remaining <= docs.Keys
        invariant forall i | 0 <= i < |s| ::
          Key(s[i]) in docs && Key(s[i]) !in remaining && docs[Key(s[i])] == s[i] && IsSettingsDoc(s[i])
        invariant forall i, j | 0 <= i < j < |s| :: Key(s[i]) != Key(s[j])
        invariant forall k | k in docs && k !in remaining && IsSettingsDoc(docs[k]) ::
          exists i | 0 <= i < |s| :: Key(s[i]) == k
        decreases remaining
      {
        var k :| k in remaining;
        ghost var before := s;
        if IsSettingsDoc(docs[k]) {
          assert Key(docs[k]) == k;
          s := s + [docs[k]];
          assert Key(s[|s| - 1]) == k;
        }
        assert forall i | 0 <= i < |before| :: s[i] == before[i];
        remaining := remaining - {k};
      }
    }

    /**
     * `loadSettings`: a failed read gives the defaults; otherwise the
     * latest settings document normalised, or the defaults without one.
     */
    method LoadSettings(readFails: bool) returns (r: AppSettings)
      requires Valid()
      ensures readFails ==> r == DefaultSettings
      ensures !readFails ==> LoadsAs(docs, r)
    {
      if readFails {
        return DefaultSettings;
      }
      var found := FindSettings();
      if |found| > 0 {
        var latest := found[LatestIndex(found)];
        LatestOfListing(found, docs);
        return NormalizeSettings(latest);
      }
      EmptyListing(found, docs);
      r := DefaultSettings;
    }

    /**
     * `saveSettings`: writes the normalised partial over the first listed
     * settings document, or as a new document under the store's fresh key;
     * a failure of the store changes nothing.
     */
    method SaveSettings(partial: Record, freshKey: string, writeFails: bool) returns (r: Outcome<SettingsError>)
      requires Valid() && freshKey !in docs
      modifies this
      ensures Valid()
      ensures writeFails <==> r.Fail?
      ensures writeFails ==> docs == old(docs)
      ensures !writeFails ==> SavedFrom(old(docs), docs, partial, freshKey)
    {
      var merged := NormalizeSettings(partial);
      if writeFails {
        return Fail(StoreFailed);
      }
      var existing := FindSettings();
      if |existing| > 0 {
        var base := existing[0];
        var k := Key(base);
        docs := docs[k := base + ToRecord(merged) + map["id" := Str(SETTINGS_ID)]];
        assert docs == old(docs)[k := SavedRecord(old(docs)[k], partial)];
      } else {
        EmptyListing(existing, docs);
        var doc := map[] + ToRecord(merged) + map["id" := Str(SETTINGS_ID)];
        docs := docs[freshKey := doc["_id" := Str(freshKey)]];
      }
      r := Pass;
    }
  }
}
