/** `vault_apply_unified_diff` on the vault's files, and runs of guarded edits by several clients. */
module PatchTool {
  import opened Basics
  import opened Lines
  import opened Patch
  import opened PatchApply
  import opened PatchParse
  import opened Utf8

  /** NFC tables, SHA-256 and path resolution are the environment's. */
  datatype Env = Env(nfc: string -> string, hash: string -> string, resolve: string -> Option<string>)

  const MAX_CONTENT_SIZE := 1_000_000

  predicate IsVariationSelector(c: char) {
    '\U{FE00}' <= c <= '\U{FE0F}' || '\U{E0100}' <= c <= '\U{E01EF}'
  }

  function StripSelectors(s: string): string {
    if s == "" then ""
    else (if IsVariationSelector(s[0]) then "" else [s[0]]) + StripSelectors(s[1..])
  }

  /** `_norm`: NFC, no variation selectors, no trailing newlines. */
  function Norm(nfc: string -> string): Normalizer {
    (s: string) => RStripNewlines(StripSelectors(nfc(s)))
  }

  function Utf8Length(s: string): nat {
    |Encode(s)|
  }

  /** `Path.read_text`: every "\r\n" and every lone '\r' is read as '\n'. */
  function ReadText(disk: string): (text: string)
    ensures '\r' !in text
  {
    if disk == "" then ""
    else if disk[0] != '\r' then [disk[0]] + ReadText(disk[1..])
    else "\n" + ReadText(if |disk| > 1 && disk[1] == '\n' then disk[2..] else disk[1..])
  }

  lemma {:induction false} ReadTextIdentity(text: string)
    ensures ReadText(text) == text <==> '\r' !in text
  {
    if text != "" {
      ReadTextIdentity(text[1..]);
      assert text == [text[0]] + text[1..];
    }
  }

  lemma ReadStart(c: char, rest: string)
    ensures ReadText("") == "" && ReadText("\r\n" + rest) == "\n" + ReadText(rest)
    ensures c != '\r' ==> ReadText([c] + rest) == [c] + ReadText(rest)
    ensures rest == "" || rest[0] != '\n' ==> ReadText("\r" + rest) == "\n" + ReadText(rest)
  {
    assert ("\r\n" + rest)[2..] == rest && ([c] + rest)[1..] == rest && ("\r" + rest)[1..] == rest;
  }

  /** Every '\r' becomes a '\n', taking the '\n' after it along. */
  lemma {:induction false} ReadTextAt(a: string, end: string, b: string)
    requires end == "\r\n" || (end == "\r" && (b == "" || b[0] != '\n'))
    ensures ReadText(a + end + b) == ReadText(a) + "\n" + ReadText(b)
    decreases |a|
  {
    hide ReadText;
    if |a| == 0 {
      ReadStart('a', b);
      assert a + end + b == end + b && "" + "\n" == "\n";
    } else if |a| > 1 && a[0] == '\r' && a[1] == '\n' {
      assert a == "\r\n" + a[2..] && a + end + b == "\r\n" + (a[2..] + end + b);
      ReadStart('a', a[2..]);
      ReadStart('a', a[2..] + end + b);
      ReadTextAt(a[2..], end, b);
    } else {
      assert a == [a[0]] + a[1..] && a + end + b == [a[0]] + (a[1..] + end + b);
      ReadStart(a[0], a[1..]);
      ReadStart(a[0], a[1..] + end + b);
      ReadTextAt(a[1..], end, b);
    }
  }

  lemma SelectorIff(c: char)
    ensures IsVariationSelector(c) <==> 0xFE00 <= c as int <= 0xFE0F || 0xE0100 <= c as int <= 0xE01EF
  {
  }

  /** Exactly the two ranges of variation selectors are dropped; every other character stays where it is. */
  lemma {:induction false} StripSelectorsAt(a: string, c: char, b: string)
    ensures StripSelectors(a + [c] + b)
         == StripSelectors(a)
            + (if 0xFE00 <= c as int <= 0xFE0F || 0xE0100 <= c as int <= 0xE01EF then "" else [c])
            + StripSelectors(b)
  {
    hide IsVariationSelector;
    SelectorIff(c);
    var s := a + [c] + b;
    if a == "" {
      assert s[0] == c && s[1..] == b;
    } else {
      assert s[0] == a[0] && s[1..] == a[1..] + [c] + b;
      StripSelectorsAt(a[1..], c, b);
    }
  }

  lemma {:induction false} RStripNewlinesAt(s: string, n: nat)
    ensures RStripNewlines(s + Newlines(n)) == RStripNewlines(s)
  {
    hide RStripNewlines;
    if n > 0 {
      assert s + Newlines(n) == s + Newlines(n - 1) + "\n";
      RStripNewlinesAt(s, n - 1);
      OneNewline(s + Newlines(n - 1));
    } else {
      assert s + Newlines(n) == s;
    }
  }

  lemma OneNewline(s: string)
    ensures RStripNewlines(s + "\n") == RStripNewlines(s)
  {
    assert (s + "\n")[..|s + "\n"| - 1] == s;
  }

  function Newlines(n: nat): string {
    if n == 0 then "" else Newlines(n - 1) + "\n"
  }

  /**
   * The normaliser in full: it is NFC with variation selectors and then final newlines taken off, so
   * two lines match exactly when these are the same.
   */
  lemma NormLaws(nfc: string -> string, s: string, t: string)
    ensures Norm(nfc)(s) == Norm(nfc)(t) <==>
      exists core, m, n :: && (core == "" || core[|core| - 1] != '\n')
                           && StripSelectors(nfc(s)) == core + Newlines(m)
                           && StripSelectors(nfc(t)) == core + Newlines(n)
  {
    var a, b := StripSelectors(nfc(s)), StripSelectors(nfc(t));
    var m := EndingNewlines(a);
    var n := EndingNewlines(b);
    if Norm(nfc)(s) == Norm(nfc)(t) {
      var core := RStripNewlines(a);
      assert a == core + Newlines(m) && b == core + Newlines(n);
    }
    forall core, m, n | (core == "" || core[|core| - 1] != '\n') && a == core + Newlines(m) && b == core + Newlines(n)
      ensures RStripNewlines(a) == RStripNewlines(b)
    {
      RStripNewlinesAt(core, m);
      RStripNewlinesAt(core, n);
    }
  }

  lemma {:induction false} EndingNewlines(s: string) returns (n: nat)
    ensures s == RStripNewlines(s) + Newlines(n)
    decreases |s|
  {
    if s != "" && s[|s| - 1] == '\n' {
      n := EndingNewlines(s[..|s| - 1]);
      n := n + 1;
      assert s == s[..|s| - 1] + "\n";
      assert RStripNewlines(s) + Newlines(n) == RStripNewlines(s) + Newlines(n - 1) + "\n";
    } else {
      n := 0;
      assert s + "" == s;
    }
  }

  // ----- One call -----

  datatype HunkInfo = HunkInfo(header: string, oldStart: nat, oldCount: nat, newCount: nat)

  datatype Reply =
    | Failed(error: PatchError)
    | Predicted(wouldChange: bool, previousHash: string, contentHash: string, hunks: seq<HunkInfo>)
    | Patched(applied: bool, previousHash: string, contentHash: string)

  function Info(hunks: seq<Hunk>): seq<HunkInfo> {
    seq(|hunks|, i requires 0 <= i < |hunks| =>
      HunkInfo(hunks[i].header, hunks[i].oldStart, hunks[i].oldCount, hunks[i].newCount))
  }

  /** The text a diff makes of `content`. */
  function Updated(env: Env, path: string, content: string, diff: string): Result<string, PatchError> {
    var hunks := Parse(path, diff);
    if hunks.Err? then Err(hunks.error)
    else
      var spliced := SpliceAll(Norm(env.nfc), SplitLines(content), hunks.value, 0);
      if spliced.None? then Err(ContextMismatch) else Ok(Concat(spliced.value))
  }

  /** The call against one file: the file's new contents and the reply. */
  function PatchFile(env: Env, path: string, disk: string, diff: string, dryRun: bool,
                     expectedHash: Option<string>, writeFails: bool): (string, Reply) {
    var content := ReadText(disk);
    if expectedHash.Some? && expectedHash.value != env.hash(content) then (disk, Failed(HashMismatch))
    else
      var updated := Updated(env, path, content, diff);
      if updated.Err? then (disk, Failed(updated.error))
      else if dryRun then
        (disk, Predicted(updated.value != content, env.hash(content), env.hash(updated.value),
                         Info(Parse(path, diff).value)))
      else if updated.value == content then
        (disk, Patched(false, env.hash(content), env.hash(content)))
      else if Utf8Length(updated.value) > MAX_CONTENT_SIZE then (disk, Failed(TooLarge))
      else if writeFails then (disk, Failed(WriteFailed))
      else (updated.value, Patched(true, env.hash(content), env.hash(updated.value)))
  }

  class Vault {
    const env: Env
    var files: map<string, string>

    constructor (env: Env, files: map<string, string>)
      ensures this.env == env && this.files == files
    {
      this.env := env;
      this.files := files;
    }

    /** `vault_apply_unified_diff`; `writeFails` is whether the temporary file cannot be written or renamed. */
    method ApplyUnifiedDiff(path: string, diff: string, dryRun: bool, expectedHash: Option<string>, writeFails: bool)
      returns (reply: Reply)
      modifies this
      ensures env.resolve(path).None? ==> files == old(files) && reply == Failed(InvalidPath)
      ensures env.resolve(path).Some? ==>
        var file := env.resolve(path).value;
        if file !in old(files) then files == old(files) && reply == Failed(FileNotFound)
        else
          var (disk, r) := PatchFile(env, path, old(files)[file], diff, dryRun, expectedHash, writeFails);
          files == old(files)[file := disk] && reply == r
    {
      if env.resolve(path).None? {
        return Failed(InvalidPath);
      }
      var file := env.resolve(path).value;
      if file !in files {
        return Failed(FileNotFound);
      }
      var disk;
      disk, reply := EditFile(env, path, files[file], diff, dryRun, expectedHash, writeFails);
      files := files[file := disk];
    }
  }

  /** The part of the call that follows the successful read, on the file it read. */
  method EditFile(env: Env, path: string, disk: string, diff: string, dryRun: bool, expectedHash: Option<string>,
                  writeFails: bool) returns (disk': string, reply: Reply)
    ensures (disk', reply) == PatchFile(env, path, disk, diff, dryRun, expectedHash, writeFails)
  {
    hide SplitLines, Concat, Parse, SpliceAll, ReadText, Utf8Length, Info, Norm;
    disk' := disk;
    var content := ReadText(disk);
    var currentHash := env.hash(content);
    if expectedHash.Some? && expectedHash.value != currentHash {
      reply := Failed(HashMismatch);
      return;
    }
    var hunks := ParseUnifiedDiff(path, diff);
    if hunks.Err? {
      reply := Failed(hunks.error);
      return;
    }
    var applied := ApplyHunks(Norm(env.nfc), content, hunks.value);
    if applied.Err? {
      reply := Failed(applied.error);
      return;
    }
    var updatedContent := applied.value;
    assert Updated(env, path, content, diff) == Ok(updatedContent);
    var updatedHash := env.hash(updatedContent);
    var wouldChange := updatedContent != content;
    if dryRun {
      reply := Predicted(wouldChange, currentHash, updatedHash, Info(hunks.value));
      return;
    }
    if wouldChange {
      if Utf8Length(updatedContent) > MAX_CONTENT_SIZE {
        reply := Failed(TooLarge);
        return;
      }
      if writeFails {
        reply := Failed(WriteFailed);
        return;
      }
      disk' := updatedContent;
    }
    reply := Patched(wouldChange, currentHash, updatedHash);
  }

  /**
   * The text a diff makes, for hunks in file order: every old side must match the lines it claims in
   * the file as it was, and all of them are then replaced at once.
   */
  lemma UpdatedInOrder(env: Env, path: string, content: string, diff: string, hunks: seq<Hunk>)
    requires Parse(path, diff) == Ok(hunks) && Ascending(hunks)
    ensures var lines := SplitLines(content);
      var matches := forall i :: 0 <= i < |hunks| ==> Matches(Norm(env.nfc), Claimed(lines, hunks[i]), OldSide(hunks[i].lines));
      && (matches ==> AllFit(lines, hunks))
      && Updated(env, path, content, diff)
         == if matches then Ok(Concat(ReplaceAll(lines, hunks, 0))) else Err(ContextMismatch)
  {
    hide Parse, SplitLines, Concat, SpliceAll, ReplaceAll, Matches, AllMatch, AllFit, Norm;
    SpliceIsSimultaneous(Norm(env.nfc), SplitLines(content), hunks);
    AllMatchEach(Norm(env.nfc), SplitLines(content), hunks);
  }

  /** A dry run changes nothing and foretells the real call, unless that one fails at the write. */
  lemma DryRunPredicts(env: Env, path: string, disk: string, diff: string, expectedHash: Option<string>,
                       writeFails: bool)
    ensures var (dryDisk, forecast) := PatchFile(env, path, disk, diff, true, expectedHash, writeFails);
      var (realDisk, outcome) := PatchFile(env, path, disk, diff, false, expectedHash, writeFails);
      && dryDisk == disk
      && (forecast.Failed? ==> outcome == forecast && realDisk == disk)
      && (forecast.Predicted? ==>
           && (outcome.Failed? <==>
                forecast.wouldChange && (writeFails ||
                  Utf8Length(Updated(env, path, ReadText(disk), diff).value) > MAX_CONTENT_SIZE))
           && (outcome.Failed? ==> realDisk == disk)
           && (outcome.Patched? ==>
                && outcome == Patched(forecast.wouldChange, forecast.previousHash, forecast.contentHash)
                && forecast.contentHash == env.hash(if forecast.wouldChange then realDisk else ReadText(disk))))
  {
    hide SplitLines, Concat, Parse, SpliceAll, ReadText, Utf8Length;
  }

  /** A hash that is the current one makes no difference: the call is as without it. */
  lemma CurrentHashIsTransparent(env: Env, path: string, disk: string, diff: string, dryRun: bool, writeFails: bool)
    ensures PatchFile(env, path, disk, diff, dryRun, Some(env.hash(ReadText(disk))), writeFails)
         == PatchFile(env, path, disk, diff, dryRun, None, writeFails)
  {
    hide Updated, ReadText, Utf8Length, Info, Parse;
  }

  /** The guard lets the call through. */
  predicate Lets(env: Env, disk: string, expectedHash: Option<string>) {
    expectedHash == None || expectedHash == Some(env.hash(ReadText(disk)))
  }

  /** A call that is let through, with a diff that applies, writes the text the diff makes and says so. */
  lemma GoodPatchCommits(env: Env, path: string, disk: string, diff: string, expectedHash: Option<string>,
                         writeFails: bool, text: string)
    requires Lets(env, disk, expectedHash) && Updated(env, path, ReadText(disk), diff) == Ok(text)
    ensures text != ReadText(disk) && |Encode(text)| <= 1_000_000 && !writeFails ==>
      PatchFile(env, path, disk, diff, false, expectedHash, writeFails)
      == (text, Patched(true, env.hash(ReadText(disk)), env.hash(text)))
    ensures text == ReadText(disk) ==>
      PatchFile(env, path, disk, diff, false, expectedHash, writeFails)
      == (disk, Patched(false, env.hash(text), env.hash(text)))
  {
    hide Updated, ReadText, Encode, Info, Parse;
  }

  /** A call fails in exactly these cases, with these errors, and then nothing is written. */
  lemma CallFailsIff(env: Env, path: string, disk: string, diff: string, dryRun: bool, expectedHash: Option<string>,
                     writeFails: bool)
    ensures var (disk', reply) := PatchFile(env, path, disk, diff, dryRun, expectedHash, writeFails);
      var updated := Updated(env, path, ReadText(disk), diff);
      var writes := !dryRun && updated.Ok? && updated.value != ReadText(disk);
      && (reply == Failed(HashMismatch) <==> !Lets(env, disk, expectedHash) || updated == Err(HashMismatch))
      && (Lets(env, disk, expectedHash) && updated.Err? ==> reply == Failed(updated.error))
      && (Lets(env, disk, expectedHash) && writes && |Encode(updated.value)| > 1_000_000 ==> reply == Failed(TooLarge))
      && (Lets(env, disk, expectedHash) && writes && |Encode(updated.value)| <= 1_000_000 && writeFails ==>
            reply == Failed(WriteFailed))
      && (reply.Failed? <==>
            || !Lets(env, disk, expectedHash) || updated.Err?
            || (writes && (|Encode(updated.value)| > 1_000_000 || writeFails)))
      && (reply.Failed? || dryRun ==> disk' == disk)
  {
    hide Updated, ReadText, Encode, Info, Parse;
  }

  /** What a dry run shows: the two hashes, whether they stand for different texts, and the hunks parsed. */
  lemma DryRunShows(env: Env, path: string, disk: string, diff: string, expectedHash: Option<string>,
                    writeFails: bool, text: string)
    requires Lets(env, disk, expectedHash) && Updated(env, path, ReadText(disk), diff) == Ok(text)
    ensures var hunks := Parse(path, diff).value;
      var (disk', reply) := PatchFile(env, path, disk, diff, true, expectedHash, writeFails);
      && disk' == disk && reply.Predicted?
      && (reply.wouldChange <==> text != ReadText(disk))
      && reply.previousHash == env.hash(ReadText(disk)) && reply.contentHash == env.hash(text)
      && |reply.hunks| == |hunks|
      && forall i :: 0 <= i < |hunks| ==>
           reply.hunks[i] == HunkInfo(hunks[i].header, hunks[i].oldStart, hunks[i].oldCount, hunks[i].newCount)
  {
    hide SplitLines, Concat, SpliceAll, ReadText, Parse;
  }

  ghost predicate Injective(hash: string -> string) {
    forall s, t :: hash(s) == hash(t) ==> s == t
  }

  // ----- Runs of guarded edits on one file -----

  type Client = nat

  datatype Event =
    | Read(client: Client)
    | Edit(client: Client, diff: string, dryRun: bool, writeFails: bool)

  /** A committed edit, with the text its author had seen. */
  datatype Commit = Commit(client: Client, diff: string, seen: string)

  /** `held` is the hash each client got last; `seen` is the text it got it for. */
  datatype Shared = Shared(disk: string, held: map<Client, string>, seen: map<Client, string>, commits: seq<Commit>)

  function Initial(disk: string): Shared {
    Shared(disk, map[], map[], [])
  }

  /** One tool call. A client that holds no hash yet does not edit. */
  function Step(env: Env, path: string, s: Shared, e: Event): Shared {
    match e
    case Read(c) =>
      var text := ReadText(s.disk);
      s.(held := s.held[c := env.hash(text)], seen := s.seen[c := text])
    case Edit(c, diff, dryRun, writeFails) =>
      if c !in s.held || c !in s.seen then s
      else
        var (disk, reply) := PatchFile(env, path, s.disk, diff, dryRun, Some(s.held[c]), writeFails);
        if !reply.Patched? then s.(disk := disk)
        else
          var updated := Updated(env, path, s.seen[c], diff);
          Shared(disk, s.held[c := reply.contentHash],
                 if updated.Ok? then s.seen[c := updated.value] else s.seen,
                 if reply.applied then s.commits + [Commit(c, diff, s.seen[c])] else s.commits)
  }

  function Run(env: Env, path: string, disk: string, events: seq<Event>): Shared {
    if |events| == 0 then Initial(disk)
    else Step(env, path, Run(env, path, disk, events[..|events| - 1]), events[|events| - 1])
  }

  /** The text after the first `n` commits, each diff applied to the text before it. */
  function Version(env: Env, path: string, initial: string, commits: seq<Commit>, n: nat): Option<string>
    requires n <= |commits|
  {
    if n == 0 then Some(initial)
    else
      var before := Version(env, path, initial, commits, n - 1);
      if before.None? then None
      else
        var after := Updated(env, path, before.value, commits[n - 1].diff);
        if after.Err? then None else Some(ReadText(after.value))
  }

  ghost predicate Serial(env: Env, path: string, initial: string, s: Shared) {
    && (forall i :: 0 <= i <= |s.commits| ==> Version(env, path, initial, s.commits, i).Some?)
    && Version(env, path, initial, s.commits, |s.commits|) == Some(ReadText(s.disk))
    && (forall i :: 0 <= i < |s.commits| ==>
         Version(env, path, initial, s.commits, i) == Some(s.commits[i].seen))
  }

  ghost predicate HashesFit(env: Env, s: Shared) {
    s.held.Keys == s.seen.Keys && forall c :: c in s.held ==> s.held[c] == env.hash(s.seen[c])
  }

  lemma {:induction false} VersionPrefix(env: Env, path: string, initial: string, commits: seq<Commit>, c: Commit, n: nat)
    requires n <= |commits|
    ensures Version(env, path, initial, commits + [c], n) == Version(env, path, initial, commits, n)
  {
    hide Updated, ReadText;
    if n > 0 {
      VersionPrefix(env, path, initial, commits, c, n - 1);
      assert (commits + [c])[n - 1] == commits[n - 1];
    }
  }

  lemma StepKeepsSerial(env: Env, path: string, initial: string, s: Shared, e: Event)
    requires Injective(env.hash)
    requires Serial(env, path, initial, s) && HashesFit(env, s)
    ensures Serial(env, path, initial, Step(env, path, s, e)) && HashesFit(env, Step(env, path, s, e))
  {
    hide Updated, ReadText, Version, Parse, Utf8Length, Info;
    if e.Edit? && e.client in s.held {
      var c := e.client;
      var (disk, reply) := PatchFile(env, path, s.disk, e.diff, e.dryRun, Some(s.held[c]), e.writeFails);
      if reply.Patched? {
        assert s.seen[c] == ReadText(s.disk);
        if reply.applied {
          CommitExtends(env, path, initial, s, Commit(c, e.diff, s.seen[c]), disk);
        }
      }
    }
  }

  lemma CommitExtends(env: Env, path: string, initial: string, s: Shared, c: Commit, disk: string)
    requires Serial(env, path, initial, s)
    requires c.seen == ReadText(s.disk) && Updated(env, path, c.seen, c.diff) == Ok(disk)
    ensures Serial(env, path, initial, s.(disk := disk, commits := s.commits + [c]))
  {
    hide Updated, ReadText;
    var commits := s.commits + [c];
    forall i | 0 <= i <= |s.commits|
      ensures Version(env, path, initial, commits, i) == Version(env, path, initial, s.commits, i)
    {
      VersionPrefix(env, path, initial, s.commits, c, i);
    }
  }

  /**
   * Serializability: in every run where each writer passes the hash of its last read or patch,
   * the file is the committed diffs applied one after the other to the initial text, and each
   * commit was made on the very version its author had seen.
   */
  lemma {:induction false} GuardedRunsAreSerial(env: Env, path: string, disk: string, events: seq<Event>)
    requires Injective(env.hash)
    ensures Serial(env, path, ReadText(disk), Run(env, path, disk, events))
    ensures HashesFit(env, Run(env, path, disk, events))
  {
    hide Step, Updated, ReadText;
    if |events| > 0 {
      GuardedRunsAreSerial(env, path, disk, events[..|events| - 1]);
      StepKeepsSerial(env, path, ReadText(disk), Run(env, path, disk, events[..|events| - 1]), events[|events| - 1]);
    }
  }

  /** A client whose text is no longer the file's is refused, and nothing changes. */
  lemma StaleEditIsRefused(env: Env, path: string, disk: string, events: seq<Event>, c: Client, diff: string,
                           dryRun: bool, writeFails: bool)
    requires Injective(env.hash)
    ensures var s := Run(env, path, disk, events);
      c in s.seen && s.seen[c] != ReadText(s.disk) ==>
      && Step(env, path, s, Edit(c, diff, dryRun, writeFails)) == s
      && c in s.held
      && PatchFile(env, path, s.disk, diff, dryRun, Some(s.held[c]), writeFails) == (s.disk, Failed(HashMismatch))
  {
    hide Run, Step, PatchFile, Serial, ReadText;
    GuardedRunsAreSerial(env, path, disk, events);
    var s := Run(env, path, disk, events);
    if c in s.seen && s.seen[c] != ReadText(s.disk) {
      StaleStep(env, path, s, c, diff, dryRun, writeFails);
    }
  }

  lemma StaleStep(env: Env, path: string, s: Shared, c: Client, diff: string, dryRun: bool, writeFails: bool)
    requires Injective(env.hash) && HashesFit(env, s)
    requires c in s.seen && s.seen[c] != ReadText(s.disk)
    ensures PatchFile(env, path, s.disk, diff, dryRun, Some(s.held[c]), writeFails) == (s.disk, Failed(HashMismatch))
    ensures Step(env, path, s, Edit(c, diff, dryRun, writeFails)) == s
  {
    hide Updated, ReadText, Parse, Utf8Length, Info;
    assert s.held[c] == env.hash(s.seen[c]);
  }

  /** A read gives the client the file's text and its hash, and changes nothing else. */
  lemma ReadSees(env: Env, path: string, s: Shared, c: Client)
    ensures var s' := Step(env, path, s, Read(c));
      && s'.disk == s.disk && s'.commits == s.commits
      && c in s'.seen && s'.seen[c] == ReadText(s.disk)
      && forall d :: d != c ==> (d in s'.seen <==> d in s.seen) && (d in s.seen ==> s'.seen[d] == s.seen[d])
  {
    hide ReadText;
  }

  /**
   * Progress: in every reachable state, an edit by a client whose text is the file's, with a diff that
   * changes it within the size limit, is committed; it adds exactly one commit and the client holds
   * the new text and hash.
   */
  lemma CurrentEditCommits(env: Env, path: string, disk: string, events: seq<Event>, c: Client, diff: string,
                           text: string)
    requires Injective(env.hash)
    ensures var s := Run(env, path, disk, events);
      c in s.seen && s.seen[c] == ReadText(s.disk) && Updated(env, path, s.seen[c], diff) == Ok(text)
      && text != s.seen[c] && |Encode(text)| <= 1_000_000 ==>
      && c in s.held
      && Step(env, path, s, Edit(c, diff, false, false))
         == Shared(text, s.held[c := env.hash(text)], s.seen[c := text], s.commits + [Commit(c, diff, s.seen[c])])
  {
    hide Run, Step, PatchFile, Serial, ReadText, Updated, Encode;
    GuardedRunsAreSerial(env, path, disk, events);
    var s := Run(env, path, disk, events);
    if c in s.seen && s.seen[c] == ReadText(s.disk) && Updated(env, path, s.seen[c], diff) == Ok(text)
       && text != s.seen[c] && |Encode(text)| <= 1_000_000 {
      CommitStep(env, path, s, c, diff, text);
    }
  }

  lemma CommitStep(env: Env, path: string, s: Shared, c: Client, diff: string, text: string)
    requires HashesFit(env, s) && c in s.seen && s.seen[c] == ReadText(s.disk)
    requires Updated(env, path, s.seen[c], diff) == Ok(text) && text != s.seen[c] && |Encode(text)| <= 1_000_000
    ensures c in s.held
    ensures Step(env, path, s, Edit(c, diff, false, false))
         == Shared(text, s.held[c := env.hash(text)], s.seen[c := text], s.commits + [Commit(c, diff, s.seen[c])])
  {
    hide PatchFile, ReadText, Updated, Encode;
    assert s.held[c] == env.hash(s.seen[c]);
    GoodPatchCommits(env, path, s.disk, diff, Some(s.held[c]), false, text);
  }
}
