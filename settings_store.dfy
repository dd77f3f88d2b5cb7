/** The persisted settings store: the Graph API token and the page. */
module SettingsStore {

  /** What is written to local storage under the key "settings-store". */
  datatype PersistedSettings = PersistedSettings(graphApiKey: string, page: string)

  const StorageKey: string := "settings-store"
  const StorageVersion: nat := 1

  class SettingsState {
    var graphApiKey: string
    var page: string

    constructor ()
      ensures graphApiKey == [] && page == []
    {
      graphApiKey := [];
      page := [];
    }

    /** Replaces both settings. */
    method SetSettings(key: string, newPage: string)
      modifies this
      ensures graphApiKey == key && page == newPage
    {
      graphApiKey := key;
      page := newPage;
    }

    /** Both settings back to the empty string. */
    method Reset()
      modifies this
      ensures graphApiKey == [] && page == []
    {
      graphApiKey := [];
      page := [];
    }

    /** The persisted part is the two settings and nothing else. */
    function Persisted(): (p: PersistedSettings)
      reads this
      ensures p.graphApiKey == graphApiKey && p.page == page
    {
      PersistedSettings(graphApiKey, page)
    }

    /** Rehydration from local storage: the stored settings become the state. */
    method Rehydrate(p: PersistedSettings)
      modifies this
      ensures Persisted() == p
    {
      graphApiKey := p.graphApiKey;
      page := p.page;
    }
  }

  /** Saving and rehydrating brings the settings back as they were. */
  method SaveAndRestore(store: SettingsState, key: string, newPage: string)
    modifies store
    ensures store.graphApiKey == key && store.page == newPage
  {
    store.SetSettings(key, newPage);
    var saved := store.Persisted();
    store.Reset();
    store.Rehydrate(saved);
  }
}
