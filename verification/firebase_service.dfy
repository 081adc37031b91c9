/** services/firebaseService.js: the per-user settings documents of the `userSettings` collection,
    keyed by the digits of the phone number, created with defaults on first read and merged into on
    update. The collection is modelled as a map; whether the store's read or write fails is an input. */
module FirebaseService {
  import opened Results
  import opened JsStrings

  /** A settings document: each field present or absent. */
  datatype Settings = Settings(showSources: Option<bool>, language: Option<string>,
                               responseLength: Option<string>, receiveNews: Option<bool>)

  /** A document with no field, as a merge write finds a missing document. */
  const NoSettings := Settings(None, None, None, None)

  /** The defaults stored for, and returned to, a user without settings. */
  const DefaultSettings := Settings(Some(false), Some("pt"), Some("medium"), Some(true))

  /** The document id of a user: the phone number with every non-digit removed. */
  function UserKey(telefone: string): (k: string)
    ensures forall i :: 0 <= i < |k| ==> IsDigit(k[i])
  {
    Digits(telefone)
  }

  /** `set(patch, { merge: true })`: the fields present in the patch replace those of the document;
      the others stay as they were. */
  function Merge(current: Settings, patch: Settings): (r: Settings)
    ensures r.showSources == if patch.showSources.Some? then patch.showSources else current.showSources
    ensures r.language == if patch.language.Some? then patch.language else current.language
    ensures r.responseLength == if patch.responseLength.Some? then patch.responseLength else current.responseLength
    ensures r.receiveNews == if patch.receiveNews.Some? then patch.receiveNews else current.receiveNews
  {
    Settings(if patch.showSources.Some? then patch.showSources else current.showSources,
             if patch.language.Some? then patch.language else current.language,
             if patch.responseLength.Some? then patch.responseLength else current.responseLength,
             if patch.receiveNews.Some? then patch.receiveNews else current.receiveNews)
  }

  /** Merging the same patch twice changes nothing the second time. */
  lemma MergeIdempotent(current: Settings, patch: Settings)
    ensures Merge(Merge(current, patch), patch) == Merge(current, patch)
  {
  }

  /** Two merges in a row are one merge of the patches, the later one winning. */
  lemma MergeCompose(current: Settings, p: Settings, q: Settings)
    ensures Merge(Merge(current, p), q) == Merge(current, Merge(p, q))
  {
  }

  /** A full document merged onto anything replaces it. */
  lemma MergeFull(current: Settings, patch: Settings)
    requires patch.showSources.Some? && patch.language.Some? && patch.responseLength.Some? && patch.receiveNews.Some?
    ensures Merge(current, patch) == patch
  {
  }

  /** Phone numbers that differ only in formatting characters (spaces, `+`, dashes, a `whatsapp:`
      prefix) share one settings document. */
  lemma {:induction false} FormattingSharesKey(a: string, c: char, b: string)
    requires !IsDigit(c)
    ensures UserKey(a + [c] + b) == UserKey(a + b)
  {
    DigitsAppend(a + [c], b);
    DigitsAppend(a, [c]);
    DigitsAppend(a, b);
    assert Digits([c]) == [] by { assert [c][1..] == []; }
  }

  /** The `userSettings` collection. */
  class SettingsStore {
    var records: map<string, Settings>

    constructor (initial: map<string, Settings>)
      ensures records == initial
    {
      records := initial;
    }

    /** `getUserSettings`: a stored document is returned as it is and nothing is written; a user
        without one gets the defaults, which are stored unless the write fails; a failed read gives
        the defaults and writes nothing. A phone number without digits gives the empty key, a
        document path the store rejects inside the `try`: the defaults, and nothing is written. */
    method GetUserSettings(telefone: string, readFails: bool, writeFails: bool) returns (s: Settings)
      modifies this
      ensures var key := UserKey(telefone);
        && (readFails || key == "" ==> s == DefaultSettings && records == old(records))
        && (!readFails && key != "" && key in old(records) ==> s == old(records)[key] && records == old(records))
        && (!readFails && key != "" && key !in old(records) ==> s == DefaultSettings)
        && (!readFails && key != "" && key !in old(records) && !writeFails ==> records == old(records)[key := DefaultSettings])
        && (!readFails && key != "" && key !in old(records) && writeFails ==> records == old(records))
    {
      var userId := UserKey(telefone);
      if readFails || userId == "" {
        return DefaultSettings;
      }
      if userId in records {
        return records[userId];
      }
      if !writeFails {
        records := records[userId := DefaultSettings];
      }
      s := DefaultSettings;
    }

    /** `updateUserSettings`: merges the patch into the user's document (creating it when missing)
        and reports true; when the write fails nothing changes and it reports false. Other users'
        documents never change. The empty key of a phone number without digits is rejected like a
        failed write. */
    method UpdateUserSettings(telefone: string, patch: Settings, fails: bool) returns (ok: bool)
      modifies this
      ensures ok <==> !fails && UserKey(telefone) != ""
      ensures var key := UserKey(telefone);
        && (!ok ==> records == old(records))
        && (ok ==> records == old(records)[key := Merge(if key in old(records) then old(records)[key] else NoSettings, patch)])
    {
      var userId := UserKey(telefone);
      if fails || userId == "" {
        return false;
      }
      var current := if userId in records then records[userId] else NoSettings;
      records := records[userId := Merge(current, patch)];
      ok := true;
    }
  }
}
