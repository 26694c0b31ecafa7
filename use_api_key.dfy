/**
 * `src/hooks/useApiKey.ts`: the API key kept for the browser session. The
 * stored entry is the base64 of a salt prefix followed by the key (an
 * obfuscation, not encryption); an entry that does not decode, or that lacks
 * the prefix, reads as no key.
 */
module ApiKey {
  import opened Wrappers
  import opened Strings
  import opened Base64

  const Salt: string := "ats:v1"

  /** The text ahead of the key in a stored entry: the salt and a colon. */
  const Prefix: string := Salt + ":"

  /** `encode(value)`: `btoa` of the prefixed key. */
  function Encode(value: string): (r: string)
    requires IsLatin1(value)
    ensures |r| >= 12 && |r| % 4 == 0
  {
    assert IsLatin1(Prefix + value) by {
      assert forall k :: 0 <= k < |Prefix| ==> (Prefix + value)[k] == Prefix[k];
    }
    assert (|Prefix + value| + 2) / 3 >= 3;
    Btoa(Prefix + value)
  }

  /**
   * `decode(value)`: the text after the prefix; `""` when the value is not
   * base64 (where `atob` throws and the exception is caught) or when the
   * decoded text does not start with the prefix.
   */
  function Decode(value: string): (r: string)
    ensures Atob(value).None? ==> r == ""
    ensures Atob(value).Some? && !StartsWith(Atob(value).value, Prefix) ==> r == ""
    ensures Atob(value).Some? && StartsWith(Atob(value).value, Prefix) ==> r == Atob(value).value[|Prefix|..]
  {
    match Atob(value)
    case None => ""
    case Some(decoded) =>
      if !StartsWith(decoded, Prefix) then "" else ReplacePrefixOf(decoded)
  }

  /** `decoded.replace(prefix, "")` once the decoded text is known to start with the prefix. */
  function ReplacePrefixOf(decoded: string): (r: string)
    requires StartsWith(decoded, Prefix)
    ensures r == decoded[|Prefix|..]
  {
    ReplacePrefix(decoded, Prefix);
    ReplaceFirst(decoded, Prefix, "")
  }

  /** Every key `btoa` accepts comes back from its encoding. */
  lemma DecodeEncode(value: string)
    requires IsLatin1(value)
    ensures Decode(Encode(value)) == value
  {
    assert IsLatin1(Prefix + value) by {
      assert forall k :: 0 <= k < |Prefix| ==> (Prefix + value)[k] == Prefix[k];
    }
    AtobBtoa(Prefix + value);
    assert (Prefix + value)[..|Prefix|] == Prefix;
    assert (Prefix + value)[|Prefix|..] == value;
  }

  /** A value that is not base64 at all decodes to no key, without failing. */
  lemma DecodeNonBase64(value: string, k: nat)
    requires k < |value| && !IsAsciiWhitespace(value[k]) && value[k] != '=' && SextetOf(value[k]).None?
    ensures Decode(value) == ""
  {
    AtobRejectsForeign(value, k);
  }

  /** A base64 value whose text lacks the prefix decodes to no key. */
  lemma DecodeWithoutPrefix(text: string)
    requires IsLatin1(text) && !StartsWith(text, Prefix)
    ensures Decode(Btoa(text)) == ""
  {
    AtobBtoa(text);
  }

  // ---------------------------------------------------------------------------
  // The hook's state

  /** The key the hook starts with: the decoded entry when there is a non-empty one, else none. */
  function InitialKey(stored: Option<string>): string {
    if stored.Some? && stored.value != "" then Decode(stored.value) else ""
  }

  /** The entry `setApiKey(value)` leaves: removed for an empty key, the encoding otherwise. */
  function StoredFor(value: string): (r: Option<string>)
    requires IsLatin1(value)
    ensures r.None? <==> value == ""
  {
    if value == "" then None else Some(Encode(value))
  }

  /** A key that was set is the key the next session starts with. */
  lemma ReloadAfterSet(value: string)
    requires IsLatin1(value)
    ensures InitialKey(StoredFor(value)) == value
  {
    if value != "" {
      DecodeEncode(value);
    }
  }

  /** The key state and the session-storage entry behind it. */
  class ApiKeyStore {
    /** The current key, as the hook returns it. */
    var apiKey: string
    /** The session-storage entry; `None` when there is none. */
    var stored: Option<string>

    /** The `useState` initializer: reads the entry once. */
    constructor (stored: Option<string>)
      ensures this.stored == stored
      ensures apiKey == InitialKey(stored)
    {
      this.stored := stored;
      apiKey := if stored.Some? && stored.value != "" then Decode(stored.value) else "";
    }

    /** `setApiKey(value)`: the key becomes `value`; the entry is removed or rewritten. */
    method SetApiKey(value: string)
      requires IsLatin1(value)
      modifies this
      ensures apiKey == value
      ensures stored == StoredFor(value)
      ensures InitialKey(stored) == apiKey
    {
      apiKey := value;
      if value == "" {
        stored := None;
        return;
      }
      stored := Some(Encode(value));
      ReloadAfterSet(value);
    }
  }
}
