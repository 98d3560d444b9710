/**
 * The request-independent logic of the web application (app.py): which
 * uploads are accepted, how a submitted transcript is trimmed and cut to
 * length, and the in-memory per-session store.
 */
module App {
  import opened Wrappers
  import opened PyText

  // ---- Upload check ----

  /** The extensions an upload may have. */
  const AllowedExtensions: set<string> := {"txt", "csv", "md"}

  /** `filename.rsplit('.', 1)[1]`: the text after the last dot. */
  function Extension(filename: string): (ext: string)
    requires '.' in filename
    ensures |ext| < |filename| && ext == filename[|filename| - |ext|..]
    ensures filename[|filename| - |ext| - 1] == '.' && '.' !in ext
  {
    var last := filename[|filename| - 1];
    if last == '.' then ""
    else
      assert '.' in filename[..|filename| - 1] by {
        var i :| 0 <= i < |filename| && filename[i] == '.';
        assert filename[..|filename| - 1][i] == '.';
      }
      var init := filename[..|filename| - 1];
      var e := Extension(init);
      assert init[|init| - |e|..] + [last] == filename[|filename| - |e| - 1..];
      e + [last]
  }

  /** `allowed_file`: the name has a dot, and the lower-cased text after the last one is an allowed extension. */
  predicate AllowedFile(filename: string) {
    '.' in filename && AsciiLower(Extension(filename)) in AllowedExtensions
  }

  /** The text after the dot at `i`, when no dot follows, is the extension. */
  lemma ExtensionAt(filename: string, i: nat)
    requires i < |filename| && filename[i] == '.' && '.' !in filename[i + 1..]
    ensures Extension(filename) == filename[i + 1..]
  {
  }

  /**
   * A name is allowed exactly when it has a dot after which, with no further
   * dot, one of `txt`, `csv`, `md` follows in any mix of upper and lower case.
   */
  lemma AllowedFileIff(filename: string)
    ensures AllowedFile(filename) <==>
            exists i :: 0 <= i < |filename| && filename[i] == '.' && '.' !in filename[i + 1..]
                        && AsciiLower(filename[i + 1..]) in AllowedExtensions
  {
    if AllowedFile(filename) {
      var ext := Extension(filename);
      var i := |filename| - |ext| - 1;
      assert filename[i + 1..] == ext;
    }
    if exists i :: 0 <= i < |filename| && filename[i] == '.' && '.' !in filename[i + 1..]
                   && AsciiLower(filename[i + 1..]) in AllowedExtensions {
      var i :| 0 <= i < |filename| && filename[i] == '.' && '.' !in filename[i + 1..]
               && AsciiLower(filename[i + 1..]) in AllowedExtensions;
      ExtensionAt(filename, i);
    }
  }

  /** Only the part after the last dot matters: any stem may precede it. */
  lemma AllowedFileOf(stem: string, ext: string)
    requires '.' !in ext
    ensures AllowedFile(stem + "." + ext) <==> AsciiLower(ext) in AllowedExtensions
  {
    var f := stem + "." + ext;
    assert f[|stem|] == '.';
    assert f[|stem| + 1..] == ext;
    ExtensionAt(f, |stem|);
  }

  /** `a.TXT` is accepted; `txt` (no dot) and `a.` (empty extension) are not. */
  lemma AllowedFileExamples()
    ensures AllowedFile("a.TXT")
    ensures !AllowedFile("txt")
    ensures !AllowedFile("a.")
  {
    AllowedFileOf("a", "TXT");
    assert AsciiLower("TXT") == "txt";
    AllowedFileOf("a", "");
    assert AsciiLower("") !in AllowedExtensions;
  }

  // ---- The submitted transcript ----

  /** The longest transcript passed on whole. */
  const MaxLength := 8000
  /** What replaces everything past the first `MaxLength` characters. */
  const TruncationNote := "\n\n[Note: Transcript truncated due to length]"
  /** The message of the 400 answer to an empty submission. */
  const NoTranscript := "No transcript provided"

  /**
   * The transcript the analysis is run on: the submission stripped, refused
   * when nothing is left, and cut to its first 8000 characters followed by a
   * note when longer; so never longer than 8000 characters and the note.
   */
  function PrepareTranscript(submitted: string): (r: Result<string, string>)
    ensures r.Err? <==> IsBlank(submitted)
    ensures r.Err? ==> r.error == NoTranscript
    ensures r.Ok? ==> |r.value| <= MaxLength + |TruncationNote|
    ensures r.Ok? && |Strip(submitted)| <= MaxLength ==> r.value == Strip(submitted)
    ensures r.Ok? && |Strip(submitted)| > MaxLength ==>
              |r.value| == MaxLength + |TruncationNote| && r.value[..MaxLength] == Strip(submitted)[..MaxLength]
              && r.value[MaxLength..] == TruncationNote
  {
    var transcript := Strip(submitted);
    if transcript == "" then Err(NoTranscript)
    else if |transcript| > MaxLength then Ok(transcript[..MaxLength] + TruncationNote)
    else Ok(transcript)
  }

  /** Preparing an accepted transcript again leaves it as it is. */
  lemma PrepareTranscriptIdempotent(submitted: string)
    requires PrepareTranscript(submitted).Ok?
    ensures PrepareTranscript(PrepareTranscript(submitted).value) == PrepareTranscript(submitted)
  {
    var s := Strip(submitted);
    var t := PrepareTranscript(submitted).value;
    if |s| > MaxLength {
      assert t[0] == s[0];
      assert t[|t| - 1] == ']';
      StripOfTrimmed(t);
      assert t[..MaxLength] == s[..MaxLength];
    } else {
      StripIdempotent(submitted);
    }
  }

  // ---- The session store ----

  /** `SESSION_STORE.get(sid, {}).get(key, default)`. */
  function Lookup<V>(sessions: map<string, map<string, V>>, sid: string, key: string, default: V): V {
    if sid in sessions && key in sessions[sid] then sessions[sid][key] else default
  }

  /** The store after `set_session_data`: the session is created when missing, then the key set. */
  function Stored<V>(sessions: map<string, map<string, V>>, sid: string, key: string, value: V)
    : (r: map<string, map<string, V>>)
    ensures r.Keys == sessions.Keys + {sid}
    ensures forall s :: s in sessions && s != sid ==> r[s] == sessions[s]
    ensures r[sid].Keys == (if sid in sessions then sessions[sid].Keys else {}) + {key}
    ensures r[sid][key] == value
    ensures forall k :: k in r[sid] && k != key ==> r[sid][k] == sessions[sid][k]
  {
    var data := if sid in sessions then sessions[sid] else map[];
    sessions[sid := data[key := value]]
  }

  /** The store after `clear_session_data`: the session's entry removed, if any. */
  function Cleared<V>(sessions: map<string, map<string, V>>, sid: string): (r: map<string, map<string, V>>)
    ensures r.Keys == sessions.Keys - {sid}
    ensures forall s :: s in r ==> r[s] == sessions[s]
  {
    sessions - {sid}
  }

  /** After a set, a get of the same session and key returns the value set. */
  lemma LookupStored<V>(sessions: map<string, map<string, V>>, sid: string, key: string, value: V, default: V)
    ensures Lookup(Stored(sessions, sid, key, value), sid, key, default) == value
  {
  }

  /** A set changes no other (session, key) entry. */
  lemma LookupStoredOther<V>(sessions: map<string, map<string, V>>, sid: string, key: string, value: V,
                             s: string, k: string, default: V)
    requires s != sid || k != key
    ensures Lookup(Stored(sessions, sid, key, value), s, k, default) == Lookup(sessions, s, k, default)
  {
  }

  /** A set creates the session when it is missing, and no other. */
  lemma StoredSessions<V>(sessions: map<string, map<string, V>>, sid: string, key: string, value: V)
    ensures Stored(sessions, sid, key, value).Keys == sessions.Keys + {sid}
  {
  }

  /** After a clear, every get of that session returns its default; other sessions are untouched. */
  lemma LookupCleared<V>(sessions: map<string, map<string, V>>, sid: string, s: string, k: string, default: V)
    ensures Lookup(Cleared(sessions, sid), sid, k, default) == default
    ensures s != sid ==> Lookup(Cleared(sessions, sid), s, k, default) == Lookup(sessions, s, k, default)
  {
  }

  /** `SESSION_STORE`: one key/value map per session id. */
  class SessionStore<V> {
    var sessions: map<string, map<string, V>>

    constructor ()
      ensures sessions == map[]
    {
      sessions := map[];
    }

    /** `get_session_data(key, default)` for session `sid`. */
    function Get(sid: string, key: string, default: V): V
      reads this
    {
      Lookup(sessions, sid, key, default)
    }

    /** `set_session_data(key, value)` for session `sid`. */
    method Set(sid: string, key: string, value: V)
      modifies this
      ensures sessions == Stored(old(sessions), sid, key, value)
      ensures forall d :: Get(sid, key, d) == value
      ensures forall s, k, d :: (s != sid || k != key) ==> Get(s, k, d) == Lookup(old(sessions), s, k, d)
    {
      if sid !in sessions {
        sessions := sessions[sid := map[]];
      }
      sessions := sessions[sid := sessions[sid][key := value]];
      forall s, k, d | s != sid || k != key
        ensures Get(s, k, d) == Lookup(old(sessions), s, k, d)
      {
        LookupStoredOther(old(sessions), sid, key, value, s, k, d);
      }
    }

    /** `clear_session_data()` for session `sid`: its entry is deleted if present. */
    method Clear(sid: string)
      modifies this
      ensures sessions == Cleared(old(sessions), sid)
      ensures forall k, d :: Get(sid, k, d) == d
      ensures forall s, k, d :: s != sid ==> Get(s, k, d) == Lookup(old(sessions), s, k, d)
    {
      if sid in sessions {
        sessions := sessions - {sid};
      }
    }
  }
}
