/**
 * The settings module: the built-in defaults, loading the stored settings with the
 * defaults filled in, reading the API key with its environment fallback, and
 * changing one setting.
 *
 * The settings file and the environment are parameters: the file is given as what
 * reading and parsing it produced, the environment as the value of DEEPSEEK_API_KEY.
 */
module Config {
  import opened Wrappers

  /** A JSON document as json.load returns it: objects become dicts, arrays lists. */
  datatype Json =
    | Null
    | Bool(b: bool)
    | Num(n: int)
    | Float(x: real)
    | Str(s: string)
    | Arr(items: seq<Json>)
    | Obj(fields: map<string, Json>)

  /** What the settings file gave: no file, a file that could not be read or parsed, or a parsed document. */
  datatype Stored = Absent | Unreadable | Parsed(doc: Json)

  /** DEFAULT_CONFIG. */
  function Defaults(): (d: map<string, Json>)
    ensures "api_key" in d && d["api_key"] == Str("")
  {
    map[
      "api_key" := Str(""),
      "model" := Str("deepseek-chat"),
      "temperature" := Float(0.7),
      "max_tokens" := Num(4000),
      "language" := Str("zh-CN"),
      "auto_save" := Bool(true),
      "save_path" := Str("output"),
      "theme" := Str("light"),
      "font_size" := Num(12),
      "recent_files" := Arr([])
    ]
  }

  /** Python's `w in t` on two strings: w occurs in t as a substring. */
  predicate Occurs(w: string, t: string) {
    w <= t || (t != [] && Occurs(w, t[1..]))
  }

  /** w is the slice of t that starts at position i. */
  predicate SliceAt(w: string, t: string, i: int) {
    0 <= i <= |t| - |w| && t[i..i + |w|] == w
  }

  /** Occurs holds exactly when w is the slice of t at some position. */
  lemma {:induction false} OccursAt(w: string, t: string)
    ensures Occurs(w, t) <==> exists i :: SliceAt(w, t, i)
  {
    if w <= t {
      assert SliceAt(w, t, 0);
    }
    if t != [] {
      OccursAt(w, t[1..]);
      if Occurs(w, t[1..]) {
        var j :| SliceAt(w, t[1..], j);
        SliceAtTail(w, t, j + 1);
      }
      if i :| SliceAt(w, t, i) {
        if i > 0 {
          SliceAtTail(w, t, i);
        } else {
          assert w <= t;
        }
      }
    }
  }

  /** A slice of t after its first character is a slice of t[1..] one position earlier. */
  lemma SliceAtTail(w: string, t: string, i: int)
    requires t != [] && 0 < i
    ensures SliceAt(w, t, i) <==> SliceAt(w, t[1..], i - 1)
  {
    if 0 < i <= |t| - |w| {
      assert t[1..][i - 1..i - 1 + |w|] == t[i..i + |w|];
    }
  }

  /**
   * Python's `key in container` for a string key: dict membership, list membership,
   * substring; None when the container does not support `in` (a TypeError).
   */
  function Contains(container: Json, key: string): (r: Option<bool>)
    ensures r.None? <==> !(container.Obj? || container.Arr? || container.Str?)
    ensures container.Obj? ==> r == Some(key in container.fields)
    ensures container.Arr? ==> r == Some(exists i :: 0 <= i < |container.items| && container.items[i] == Str(key))
    ensures container.Str? ==> r == Some(exists i :: SliceAt(key, container.s, i))
  {
    match container
    case Obj(m) => Some(key in m)
    case Arr(xs) => Some(Str(key) in xs)
    case Str(t) => OccursAt(key, t); Some(Occurs(key, t))
    case _ => None
  }

  /**
   * What the merge loop of load_config leaves: a dict gains every default key it lacks;
   * any other document survives only if it already "contains" every default key, since
   * otherwise the first item assignment raises; None stands for that exception.
   */
  function Merged(doc: Json): Option<Json> {
    if doc.Obj? then Some(Obj(Defaults() + doc.fields))
    else if forall k | k in Defaults() :: Contains(doc, k) == Some(true) then Some(doc)
    else None
  }

  /** load_config: the merged document, or a copy of the defaults when there is no file or anything fails. */
  function LoadedConfig(stored: Stored): Json {
    match stored
    case Parsed(doc) =>
      (match Merged(doc)
       case Some(c) => c
       case None => Obj(Defaults()))
    case _ => Obj(Defaults())
  }

  /** The defaults restricted to the keys already visited by the merge loop. */
  function Visited(done: set<string>): map<string, Json> {
    map k | k in done && k in Defaults() :: Defaults()[k]
  }

  /**
   * The loop of load_config over DEFAULT_CONFIG: for each default key not in the
   * document, store the default value. The keys are visited in an arbitrary order;
   * the result does not depend on it.
   */
  method MergeDefaults(doc: Json) returns (r: Option<Json>)
    ensures r == Merged(doc)
  {
    var cfg := doc;
    var todo := Defaults().Keys;
    while todo != {}
      invariant todo <= Defaults().Keys
      invariant doc.Obj? ==> cfg == Obj(Visited(Defaults().Keys - todo) + doc.fields)
      invariant !doc.Obj? ==> cfg == doc && forall k | k in Defaults().Keys - todo :: Contains(doc, k) == Some(true)
      decreases todo
    {
      var key :| key in todo;
      var present := Contains(cfg, key);
      if present.None? || (present == Some(false) && !cfg.Obj?) {
        // `in` or the item assignment raised
        NotMerged(doc, key);
        return None;
      }
      if present == Some(false) {
        VisitStep(Defaults().Keys - todo, key, doc.fields);
        cfg := Obj(cfg.fields[key := Defaults()[key]]);
      } else if doc.Obj? {
        VisitPresent(Defaults().Keys - todo, key, doc.fields);
      }
      todo := todo - {key};
    }
    assert Defaults().Keys - todo == Defaults().Keys;
    VisitAll();
    return Some(cfg);
  }

  lemma NotMerged(doc: Json, key: string)
    requires !doc.Obj? && key in Defaults() && Contains(doc, key) != Some(true)
    ensures Merged(doc) == None
  {
  }

  /** Storing the default of a key the document lacks extends the visited part by that key. */
  lemma VisitStep(done: set<string>, key: string, m: map<string, Json>)
    requires key in Defaults() && key !in done && key !in Visited(done) + m
    ensures (Visited(done) + m)[key := Defaults()[key]] == Visited(done + {key}) + m
  {
  }

  /** A key the document already has is left alone, which is what the visited part says too. */
  lemma VisitPresent(done: set<string>, key: string, m: map<string, Json>)
    requires key in m
    ensures Visited(done) + m == Visited(done + {key}) + m
  {
  }

  lemma VisitAll()
    ensures Visited(Defaults().Keys) == Defaults()
  {
  }

  /** load_config with the file given as what reading and parsing it produced. */
  method LoadConfig(stored: Stored) returns (config: Json)
    ensures config == LoadedConfig(stored)
  {
    if stored.Parsed? {
      var merged := MergeDefaults(stored.doc);
      if merged.Some? {
        return merged.value;
      }
    }
    return Obj(Defaults());
  }

  /** Python truthiness of a JSON value. */
  predicate Truthy(v: Json) {
    match v
    case Null => false
    case Bool(b) => b
    case Num(n) => n != 0
    case Float(x) => x != 0.0
    case Str(s) => s != []
    case Arr(xs) => xs != []
    case Obj(m) => m != map[]
  }

  /**
   * get_api_key: the configured api_key if it is truthy, otherwise the environment's
   * DEEPSEEK_API_KEY, otherwise "". None when the loaded config is not a dict, where
   * config.get raises.
   */
  function GetApiKey(stored: Stored, env: Option<string>): (r: Option<Json>)
    ensures r.Some? <==> LoadedConfig(stored).Obj?
  {
    var config := LoadedConfig(stored);
    if !config.Obj? then None
    else
      var key := if "api_key" in config.fields then config.fields["api_key"] else Str("");
      if Truthy(key) then Some(key)
      else Some(Str(match env case Some(v) => v case None => ""))
  }

  /**
   * update_config: load, set key to value, and hand the result to save_config.
   * Returns the settings written; None when the loaded config is not a dict and the
   * assignment raises.
   */
  method UpdateConfig(stored: Stored, key: string, value: Json) returns (written: Option<Json>)
    ensures written.Some? <==> LoadedConfig(stored).Obj?
    ensures written.Some? ==> var w, c := written.value, LoadedConfig(stored);
      && w.Obj? && key in w.fields && w.fields[key] == value
      && w.fields.Keys == c.fields.Keys + {key}
      && forall k | k in w.fields && k != key :: w.fields[k] == c.fields[k]
  {
    var config := LoadConfig(stored);
    if !config.Obj? {
      return None;
    }
    written := Some(Obj(config.fields[key := value]));
  }

  // ---------------------------------------------------------------------------
  // Properties of loading

  /** Every default key is present after loading a dict; the ones it lacked get the default value. */
  lemma DefaultsPresent(m: map<string, Json>)
    ensures var c := LoadedConfig(Parsed(Obj(m)));
      && c.Obj?
      && (forall k | k in Defaults() :: k in c.fields)
      && (forall k | k in Defaults() && k !in m :: c.fields[k] == Defaults()[k])
  {
  }

  /** Stored values win and no stored key is dropped: the keys are the stored ones plus the defaults. */
  lemma StoredWins(m: map<string, Json>)
    ensures var c := LoadedConfig(Parsed(Obj(m)));
      && c.Obj?
      && c.fields.Keys == m.Keys + Defaults().Keys
      && (forall k | k in m :: c.fields[k] == m[k])
  {
  }

  /** Without a usable file the result is exactly the defaults. */
  lemma FallbackToDefaults(stored: Stored)
    requires stored.Absent? || stored.Unreadable? || (stored.Parsed? && Merged(stored.doc).None?)
    ensures LoadedConfig(stored) == Obj(Defaults())
  {
  }

  /** A document that is not a dict or list or string always falls back to the defaults. */
  lemma ScalarFallsBack(doc: Json)
    requires !(doc.Obj? || doc.Arr? || doc.Str?)
    ensures LoadedConfig(Parsed(doc)) == Obj(Defaults())
  {
    assert Contains(doc, "api_key") == None;
  }

  /** A list or string survives loading unchanged only when it holds every default key. */
  lemma NonDictKept(doc: Json)
    requires doc.Arr? || doc.Str?
    ensures LoadedConfig(Parsed(doc)) == doc <==> forall k | k in Defaults() :: Contains(doc, k) == Some(true)
  {
  }

  /** Saving what was loaded and loading it again gives the same settings. */
  lemma ReloadIdempotent(stored: Stored)
    requires LoadedConfig(stored).Obj?
    ensures LoadedConfig(Parsed(LoadedConfig(stored))) == LoadedConfig(stored)
  {
    var c := LoadedConfig(stored);
    assert Defaults().Keys <= c.fields.Keys;
    assert Defaults() + c.fields == c.fields;
  }

  // ---------------------------------------------------------------------------
  // Properties of the API key

  /** A truthy configured key wins over the environment and is returned as stored, whatever its type. */
  lemma ConfiguredKeyWins(m: map<string, Json>, env: Option<string>)
    requires "api_key" in m && Truthy(m["api_key"])
    ensures GetApiKey(Parsed(Obj(m)), env) == Some(m["api_key"])
  {
  }

  /** With no usable settings the key comes from the environment, or is "". */
  lemma EnvironmentFallback(stored: Stored, env: Option<string>)
    requires LoadedConfig(stored) == Obj(Defaults())
    ensures GetApiKey(stored, env) == Some(Str(if env.Some? then env.value else ""))
  {
  }

  /** An empty or missing configured key falls back to the environment. */
  lemma EmptyKeyFallsBack(m: map<string, Json>, env: Option<string>)
    requires "api_key" !in m || !Truthy(m["api_key"])
    ensures GetApiKey(Parsed(Obj(m)), env) == Some(Str(if env.Some? then env.value else ""))
  {
  }

  /**
   * What update_config writes reloads with the new value in place and every other
   * setting as before: the round trip of an update through the settings file.
   */
  lemma UpdatePersists(stored: Stored, key: string, value: Json, w: Json)
    requires LoadedConfig(stored).Obj?
    requires w.Obj? && w.fields == LoadedConfig(stored).fields[key := value]
    ensures var c := LoadedConfig(Parsed(w));
      && c == w
      && c.fields[key] == value
      && forall k | k in LoadedConfig(stored).fields && k != key :: c.fields[k] == LoadedConfig(stored).fields[k]
  {
    ReloadIdempotent(stored);
    var old_fields := LoadedConfig(stored).fields;
    assert Defaults().Keys <= old_fields.Keys;
    assert Defaults() + w.fields == w.fields;
  }
}
