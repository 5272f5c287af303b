/** The image references the engine pulls (src/docker_resource.rs), against the
    grammar they are written in: `[registry/]path[:tag][@sha256:digest]`. */
module ImageReferences {
  import opened Text

  const REGISTRIES := [
    "docker.io", "ghcr.io", "quay.io", "gcr.io", "mcr.microsoft.com", "registry.k8s.io",
    "lscr.io", "public.ecr.aws", "registry.gitlab.com"]

  const MAX_LENGTH := 255

  // ---- the grammar --------------------------------------------------------

  datatype Reference = Reference(registry: Option<string>, path: seq<string>, tag: Option<string>, digest: Option<string>)

  predicate IsLowerOrDigit(c: char) {
    IsLower(c) || IsDigit(c)
  }

  predicate IsPartChar(c: char) {
    IsLowerOrDigit(c) || c == '.' || c == '_' || c == '-'
  }

  predicate IsComponent(s: string) {
    s != "" && IsLowerOrDigit(s[0]) && forall c | c in s :: IsPartChar(c)
  }

  predicate IsTag(s: string) {
    && 1 <= |s| <= 128
    && (IsAlphanumeric(s[0]) || s[0] == '_')
    && forall c | c in s :: IsAlphanumeric(c) || c == '_' || c == '.' || c == '-'
  }

  predicate IsDigest(s: string) {
    |s| == 64 && forall c | c in s :: IsDigit(c) || 'a' <= c <= 'f'
  }

  /** What is taken for a registry when more follows. */
  predicate LooksLikeRegistry(s: string) {
    '.' in s || ':' in s || s == "localhost"
  }

  predicate WellFormed(r: Reference) {
    && (r.registry.Some? ==> r.registry.value in REGISTRIES)
    && r.path != [] && (forall part | part in r.path :: IsComponent(part))
    && (r.registry.None? && |r.path| > 1 ==> !LooksLikeRegistry(r.path[0]))
    && (r.tag.Some? ==> IsTag(r.tag.value))
    && (r.digest.Some? ==> IsDigest(r.digest.value))
  }

  function Parts(r: Reference): seq<string> {
    if r.registry.Some? then [r.registry.value] + r.path else r.path
  }

  function Tagged(path: string, tag: Option<string>): string {
    if tag.Some? then path + [':'] + tag.value else path
  }

  function Digested(name: string, digest: Option<string>): string {
    if digest.Some? then name + ['@'] + ("sha256:" + digest.value) else name
  }

  function Print(r: Reference): string {
    Digested(Tagged(Join(Parts(r), '/'), r.tag), r.digest)
  }

  // ---- the parser ---------------------------------------------------------

  datatype Parsed = Ok(reference: Reference) | Invalid | RegistryNotAllowed

  predicate IsReferenceChar(c: char) {
    IsAlphanumeric(c) || c == '.' || c == '_' || c == '-' || c == '/' || c == ':' || c == '@'
  }

  /** `ImageReference::parse`. */
  function Parse(value: string): Parsed {
    if value == "" || |value| > MAX_LENGTH || exists c | c in value :: !IsReferenceChar(c) then Invalid
    else
      match SplitOnce(value, '@')
      case None => ParseName(value, None)
      case Some((name, digest)) =>
        if StartsWith(digest, "sha256:") && IsDigest(digest[7..]) then ParseName(name, Some(digest[7..])) else Invalid
  }

  /** A colon after the last slash starts the tag. */
  function SplitTag(name: string): (r: (string, Option<string>))
    ensures Tagged(r.0, r.1) == name
  {
    var colon, slash := FindLast(name, ":"), FindLast(name, "/");
    if colon.Some? && (slash.None? || colon.value > slash.value) then
      assert name[colon.value..colon.value + 1] == ":";
      (name[..colon.value], Some(name[colon.value + 1..]))
    else (name, None)
  }

  function ParseName(name: string, digest: Option<string>): Parsed {
    var (path, tag) := SplitTag(name);
    if tag.Some? && !IsTag(tag.value) then Invalid else ParsePath(Split(path, '/'), tag, digest)
  }

  function ParsePath(parts: seq<string>, tag: Option<string>, digest: Option<string>): Parsed
    requires parts != []
  {
    var hasRegistry := |parts| > 1 && LooksLikeRegistry(parts[0]);
    var path := if hasRegistry then parts[1..] else parts;
    if hasRegistry && parts[0] !in REGISTRIES then RegistryNotAllowed
    else if forall part | part in path :: IsComponent(part)
    then Ok(Reference(if hasRegistry then Some(parts[0]) else None, path, tag, digest))
    else Invalid
  }

  // ---- what is parsed is what was written ---------------------------------

  lemma PathSound(parts: seq<string>, tag: Option<string>, digest: Option<string>)
    requires parts != [] && (tag.Some? ==> IsTag(tag.value)) && (digest.Some? ==> IsDigest(digest.value))
    requires ParsePath(parts, tag, digest).Ok?
    ensures var r := ParsePath(parts, tag, digest).reference;
            WellFormed(r) && Parts(r) == parts && r.tag == tag && r.digest == digest
  {
    assert |parts| > 1 ==> [parts[0]] + parts[1..] == parts;
  }

  lemma NameSound(name: string, digest: Option<string>)
    requires digest.Some? ==> IsDigest(digest.value)
    requires ParseName(name, digest).Ok?
    ensures var r := ParseName(name, digest).reference;
            WellFormed(r) && Tagged(Join(Parts(r), '/'), r.tag) == name && r.digest == digest
  {
    var (path, tag) := SplitTag(name);
    PathSound(Split(path, '/'), tag, digest);
    JoinSplit(path, '/');
  }

  lemma ParseSound(value: string)
    requires Parse(value).Ok?
    ensures WellFormed(Parse(value).reference) && Print(Parse(value).reference) == value && |value| <= MAX_LENGTH
  {
    match SplitOnce(value, '@')
    case None => NameSound(value, None);
    case Some((name, digest)) =>
      assert digest == "sha256:" + digest[7..];
      NameSound(name, Some(digest[7..]));
  }

  // ---- and what is written is parsed --------------------------------------

  lemma RegistryText(s: string)
    requires s in REGISTRIES
    ensures '.' in s && forall c | c in s :: IsPartChar(c)
  {
  }

  lemma PartsPlain(r: Reference)
    requires WellFormed(r)
    ensures forall part | part in Parts(r) :: forall c | c in part :: IsPartChar(c)
  {
    if r.registry.Some? {
      RegistryText(r.registry.value);
    }
  }

  lemma PathText(r: Reference)
    requires WellFormed(r)
    ensures forall c | c in Join(Parts(r), '/') :: IsPartChar(c) || c == '/'
    ensures Join(Parts(r), '/') != ""
  {
    PartsPlain(r);
    forall c | c in Join(Parts(r), '/') ensures IsPartChar(c) || c == '/' {
      JoinChars(Parts(r), '/', c);
    }
    assert Parts(r)[0] in Parts(r);
  }

  lemma LastChar(s: string, c: char)
    ensures var r := FindLast(s, [c]);
            if r.Some? then r.value < |s| && s[r.value] == c && c !in s[r.value + 1..] else c !in s
  {
    var r := FindLast(s, [c]);
    if r.Some? {
      assert s[r.value..r.value + 1] == [c] && s[r.value] == s[r.value..r.value + 1][0];
    }
    assert forall i: nat | i < |s| && s[i] == c :: OccursAt(s, [c], i) by {
      assert forall i: nat | i < |s| :: s[i..i + 1] == [s[i]];
    }
  }

  lemma SplitTagged(path: string, tag: Option<string>)
    requires ':' !in path
    requires tag.Some? ==> ':' !in tag.value && '/' !in tag.value
    ensures SplitTag(Tagged(path, tag)) == (path, tag)
  {
    var name := Tagged(path, tag);
    LastChar(name, ':');
    LastChar(name, '/');
    if tag.Some? {
      var colon := FindLast(name, ":").value;
      assert name[|path|] == ':' && name[..|path|] == path && name[|path| + 1..] == tag.value;
      assert forall i | |path| < i < |name| :: name[i] == tag.value[i - |path| - 1] && name[i] in tag.value;
      assert forall i | 0 <= i < |path| :: name[i] == path[i] && name[i] in path;
      assert colon == |path|;
    }
  }

  lemma PathComplete(r: Reference)
    requires WellFormed(r)
    ensures ParsePath(Parts(r), r.tag, r.digest) == Ok(r)
  {
    if r.registry.Some? {
      RegistryText(r.registry.value);
      assert Parts(r)[1..] == r.path;
    }
  }

  lemma NameComplete(r: Reference)
    requires WellFormed(r)
    ensures ParseName(Tagged(Join(Parts(r), '/'), r.tag), r.digest) == Ok(r)
  {
    var path := Join(Parts(r), '/');
    PathText(r);
    PartsPlain(r);
    SplitTagged(path, r.tag);
    SplitJoin(Parts(r), '/');
    PathComplete(r);
  }

  lemma NameText(r: Reference)
    requires WellFormed(r)
    ensures var name := Tagged(Join(Parts(r), '/'), r.tag);
            name != "" && forall c | c in name :: IsReferenceChar(c) && c != '@'
  {
    PathText(r);
  }

  lemma ParseComplete(r: Reference)
    requires WellFormed(r) && |Print(r)| <= MAX_LENGTH
    ensures Parse(Print(r)) == Ok(r)
  {
    var name := Tagged(Join(Parts(r), '/'), r.tag);
    NameText(r);
    NameComplete(r);
    if r.digest.Some? {
      var digest := "sha256:" + r.digest.value;
      assert digest[..7] == "sha256:" && digest[7..] == r.digest.value;
      SplitOnceAt(name, '@', digest);
      DigestText(r.digest.value);
    }
  }

  lemma DigestText(hex: string)
    requires IsDigest(hex)
    ensures forall c | c in "sha256:" + hex :: IsReferenceChar(c)
  {
  }

  /** A value is accepted, and as which reference, exactly as the grammar says;
      so what is pulled comes from a listed registry or from none. */
  lemma ParseExact(value: string, r: Reference)
    ensures Parse(value) == Ok(r) <==> WellFormed(r) && Print(r) == value && |value| <= MAX_LENGTH
  {
    if Parse(value).Ok? {
      ParseSound(value);
    }
    if WellFormed(r) && Print(r) == value && |value| <= MAX_LENGTH {
      ParseComplete(r);
    }
  }
}
