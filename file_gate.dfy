/**
 * The plugin's file-serving callback, `local_session_pluginfile`: a chain of
 * early refusals in front of the host's file store. The SHA-1 digest and the
 * store are inputs (a function and a map from digest to stored file), and the
 * final send is the `Served` outcome, carrying what is handed to the host.
 */
module FileGate {
  import opened PhpStrings

  /** Moodle's `CONTEXT_COURSE` context level. */
  const ContextCourse: int := 50

  /** The storage component the plugin's files live under. */
  const Component: string := "local_session"

  datatype Context = Context(level: int, id: nat)

  /** What the host's file store returns for a digest: a file or a directory entry. */
  datatype StoredFile = StoredFile(filename: string, isDirectory: bool)

  /**
   * `false` from the callback (the host answers "not found"), or the file
   * passed to `send_stored_file` together with the caller's download flag and
   * options. The lifetime and filter arguments are always 0 in the source.
   */
  datatype Outcome =
    | Refused
    | Served(file: StoredFile, forceDownload: bool, options: map<string, string>)

  /** `"/$contextid/local_session/$filearea/" . implode('/', $args)`. */
  function FullPath(contextId: nat, fileArea: string, args: seq<string>): string
  {
    "/" + Decimal(contextId) + "/" + Component + "/" + fileArea + "/" + Implode("/", args)
  }

  /** The digest under which the callback looks the file up. */
  function LookupKey(sha1: string -> string, context: Context, fileArea: string, args: seq<string>): string
  {
    sha1(FullPath(context.id, fileArea, args))
  }

  /**
   * The callback's decision. It serves exactly when the context is a course
   * context, the store has an entry under the digest of the composed path,
   * and that entry is not a directory; what it serves is that entry.
   */
  function Pluginfile(
    context: Context, fileArea: string, args: seq<string>, forceDownload: bool,
    options: map<string, string>, sha1: string -> string, store: map<string, StoredFile>
  ): (r: Outcome)
    ensures r.Served? <==>
      context.level == ContextCourse &&
      LookupKey(sha1, context, fileArea, args) in store &&
      !store[LookupKey(sha1, context, fileArea, args)].isDirectory
    ensures r.Served? ==>
      r.file == store[LookupKey(sha1, context, fileArea, args)] &&
      r.forceDownload == forceDownload && r.options == options
  {
    if context.level != ContextCourse then Refused
    else
      var key := sha1(FullPath(context.id, fileArea, args));
      if key !in store then Refused
      else
        var file := store[key];
        if file.isDirectory then Refused
        else Served(file, forceDownload, options)
  }

  /**
   * A context that is not a course context is refused before any lookup:
   * the outcome is `Refused` whatever the digest function and the store are.
   */
  lemma NonCourseContextRefusedBeforeLookup(
    context: Context, fileArea: string, args: seq<string>, forceDownload: bool,
    options: map<string, string>, sha1: string -> string, store: map<string, StoredFile>,
    otherSha1: string -> string, otherStore: map<string, StoredFile>
  )
    requires context.level != ContextCourse
    ensures Pluginfile(context, fileArea, args, forceDownload, options, sha1, store) == Refused
    ensures Pluginfile(context, fileArea, args, forceDownload, options, sha1, store)
         == Pluginfile(context, fileArea, args, forceDownload, options, otherSha1, otherStore)
  {
  }

  /** The only store entry the decision depends on is the one under the lookup digest. */
  lemma DecisionDependsOnlyOnLookupEntry(
    context: Context, fileArea: string, args: seq<string>, forceDownload: bool,
    options: map<string, string>, sha1: string -> string, store: map<string, StoredFile>,
    otherStore: map<string, StoredFile>
  )
    requires var key := LookupKey(sha1, context, fileArea, args);
      (key in store <==> key in otherStore) && (key in store ==> store[key] == otherStore[key])
    ensures Pluginfile(context, fileArea, args, forceDownload, options, sha1, store)
         == Pluginfile(context, fileArea, args, forceDownload, options, sha1, otherStore)
  {
  }

  /** `FullPath`'s shape with its fields as variables: a leading `/`, then fields joined by `/`. */
  lemma PathShape(d: string, c: string, a: string, rel: string)
    ensures "/" + d + "/" + c + "/" + a + "/" + rel == "/" + (d + "/" + (c + "/" + a + "/" + rel))
    ensures "/" + d + "/" + c + "/" + a + "/" + rel == Implode("/", ["", d, c, a, rel])
  {
    var fields := ["", d, c, a, rel];
    assert fields[1..] == [d, c, a, rel];
    assert fields[1..][1..] == [c, a, rel];
    assert fields[1..][1..][1..] == [a, rel];
    assert fields[1..][1..][1..][1..] == [rel];
    assert Implode("/", fields[1..][1..][1..]) == a + "/" + rel;
    assert Implode("/", fields[1..][1..]) == c + "/" + (a + "/" + rel);
    assert Implode("/", fields[1..]) == d + "/" + (c + "/" + (a + "/" + rel));
  }

  /**
   * The composed path is the `/`-implosion of its fields: an empty leading
   * field, the context id, the component, the file area, then the arguments
   * (or one empty field when there are none, giving the trailing `/`).
   */
  lemma FullPathFields(contextId: nat, fileArea: string, args: seq<string>)
    ensures FullPath(contextId, fileArea, args)
         == Implode("/", ["", Decimal(contextId), Component, fileArea] + (if args == [] then [""] else args))
  {
    var head := ["", Decimal(contextId), Component, fileArea];
    var tail := if args == [] then [""] else args;
    PathShape(Decimal(contextId), Component, fileArea, Implode("/", args));
    assert Implode("/", ["", Decimal(contextId), Component, fileArea, Implode("/", args)])
        == Implode("/", head) + "/" + Implode("/", args) by {
      ImplodeAppend("/", head, [Implode("/", args)]);
      assert head + [Implode("/", args)] == ["", Decimal(contextId), Component, fileArea, Implode("/", args)];
    }
    ImplodeAppend("/", head, tail);
    assert Implode("/", tail) == Implode("/", args);
  }

  /**
   * Round trip: when neither the file area nor any argument holds a `/`,
   * splitting the composed path at `/` gives back every field it was built
   * from, and a single empty last field when there are no arguments.
   */
  lemma ExplodeFullPath(contextId: nat, fileArea: string, args: seq<string>)
    requires '/' !in fileArea && FreeOf('/', args)
    ensures Explode('/', FullPath(contextId, fileArea, args))
         == ["", Decimal(contextId), Component, fileArea] + (if args == [] then [""] else args)
  {
    var fields := ["", Decimal(contextId), Component, fileArea] + (if args == [] then [""] else args);
    FullPathFields(contextId, fileArea, args);
    DecimalHasNoSlash(contextId);
    assert FreeOf('/', fields) by {
      forall i | 0 <= i < |fields| ensures '/' !in fields[i] {
        if i >= 4 && args != [] {
          assert fields[i] == args[i - 4];
        }
      }
    }
    ExplodeImplode('/', fields);
  }

  /**
   * Files of different contexts never share a lookup path: the context id is
   * the first field of the path, whatever the file areas and arguments are.
   */
  lemma FullPathDeterminesContext(
    c1: nat, area1: string, args1: seq<string>, c2: nat, area2: string, args2: seq<string>
  )
    requires FullPath(c1, area1, args1) == FullPath(c2, area2, args2)
    ensures c1 == c2
  {
    var rest1 := Component + "/" + area1 + "/" + Implode("/", args1);
    var rest2 := Component + "/" + area2 + "/" + Implode("/", args2);
    PathShape(Decimal(c1), Component, area1, Implode("/", args1));
    PathShape(Decimal(c2), Component, area2, Implode("/", args2));
    StripLeading('/', Decimal(c1) + "/" + rest1, Decimal(c2) + "/" + rest2);
    DecimalHasNoSlash(c1);
    DecimalHasNoSlash(c2);
    LeadingFieldUnique(Decimal(c1), rest1, Decimal(c2), rest2, '/');
    DecimalInjective(c1, c2);
  }

  lemma StripLeading(c: char, x: string, y: string)
    requires [c] + x == [c] + y
    ensures x == y
  {
    assert x == ([c] + x)[1..];
  }
}
