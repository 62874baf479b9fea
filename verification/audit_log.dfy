/**
 * The hash-chained audit log of the forensics toolkit. Every entry records
 * the hash of the entry before it (64 zeros for the first), and its own
 * hash covers all its fields, the recorded previous hash included.
 * Verification walks the file from the top and stops at the first line
 * that breaks the chain.
 *
 * The hash (SHA-256 of the key-sorted JSON text) is a parameter of the
 * logger. The file is a sequence of lines, each either text that does not
 * parse as JSON or a parsed object; writing a line and parsing it back is
 * taken to give the same object.
 */
module AuditLog {
  import opened Common

  /** The previous hash of the first entry: sixty-four '0' characters. */
  const GENESIS: string := "0000000000000000000000000000000000000000000000000000000000000000"

  /** The fields of an entry other than the two hashes. */
  datatype Fields = Fields(timestamp: string, user: string, target: string, action: string, result: string, authToken: Option<string>)

  /**
   * The "hash" member of a parsed line: missing, present but not a JSON
   * string (null, a number, an array or an object), or a string.
   */
  datatype StoredHash = NoHash | NotText | Hash(text: string)

  /**
   * A line of the log: unparsable text, JSON that is not an object, or an
   * object. A "previous_hash" that is missing or not a string is None;
   * either way it differs from every hash the walk can have reached.
   */
  datatype Line = Invalid | NotObject | Parsed(fields: Fields, previousHash: Option<string>, hash: StoredHash)

  /**
   * What verify_integrity reports. Raised is the exception that escapes it:
   * the KeyError of an object without a "hash" key, or the AttributeError
   * of a JSON value that is not an object.
   */
  datatype Verdict =
    | NoLog
    | Verified(entries: nat)
    | ChainBroken(line: nat)
    | HashMismatch(line: nat)
    | InvalidJson(line: nat)
    | Raised(line: nat)

  /** The boolean half of verify_integrity's result. */
  predicate Accepted(v: Verdict)
  {
    v.NoLog? || v.Verified?
  }

  /** The line log_action appends: the fields, the previous hash, and the hash of both. */
  function Chained(f: Fields, previous: string, hash: (Fields, string) -> string): (l: Line)
    ensures l.Parsed? && l.previousHash == Some(previous) && l.hash == Hash(hash(f, previous))
  {
    Parsed(f, Some(previous), Hash(hash(f, previous)))
  }

  /**
   * The verification of the lines after the first n, with `prev` the hash
   * the chain has reached. Line numbers count from 1.
   */
  function Walk(lines: seq<Line>, prev: string, n: nat, hash: (Fields, string) -> string): (v: Verdict)
    ensures v.Verified? ==> v.entries == n + |lines|
    ensures !Accepted(v) ==> n < v.line <= n + |lines|
    ensures !v.NoLog?
  {
    if lines == [] then Verified(n)
    else match lines[0]
      case Invalid => InvalidJson(n + 1)
      case NotObject => Raised(n + 1)
      case Parsed(f, ph, h) =>
        if ph != Some(prev) then ChainBroken(n + 1)
        else match h
          case NoHash => Raised(n + 1)
          case NotText => HashMismatch(n + 1)
          case Hash(t) => if hash(f, prev) != t then HashMismatch(n + 1) else Walk(lines[1..], t, n + 1, hash)
  }

  /** verify_integrity on a file that may be absent. */
  function Check(file: Option<seq<Line>>, hash: (Fields, string) -> string): (v: Verdict)
    ensures file.None? <==> v.NoLog?
    ensures v.Verified? ==> v.entries == |file.value|
  {
    if file.None? then NoLog else Walk(file.value, GENESIS, 0, hash)
  }

  /** The hash of the last line that carries a string one, `prev` when none does. */
  function LastHash(lines: seq<Line>, prev: string): string
  {
    if lines == [] then prev
    else LastHash(lines[1..], if lines[0].Parsed? && lines[0].hash.Hash? then lines[0].hash.text else prev)
  }

  /** After an appended line with a hash, that hash is the last one. */
  lemma {:induction false} LastHashAppend(lines: seq<Line>, prev: string, l: Line)
    requires l.Parsed? && l.hash.Hash?
    ensures LastHash(lines + [l], prev) == l.hash.text
  {
    if lines == [] {
      assert [] + [l] == [l];
      assert [l][1..] == [];
    } else {
      assert (lines + [l])[1..] == lines[1..] + [l];
      LastHashAppend(lines[1..], if lines[0].Parsed? && lines[0].hash.Hash? then lines[0].hash.text else prev, l);
    }
  }

  /**
   * A chain that verifies, extended by an entry recording its last hash,
   * verifies with one entry more.
   */
  lemma {:induction false} WalkAppend(lines: seq<Line>, prev: string, n: nat, f: Fields, hash: (Fields, string) -> string)
    requires Walk(lines, prev, n, hash).Verified?
    ensures Walk(lines + [Chained(f, LastHash(lines, prev), hash)], prev, n, hash) == Verified(n + |lines| + 1)
  {
    var next := Chained(f, LastHash(lines, prev), hash);
    if lines == [] {
      assert [] + [next] == [next];
      assert [next][1..] == [];
    } else {
      var h := lines[0].hash.text;
      assert (lines + [next])[1..] == lines[1..] + [next];
      WalkAppend(lines[1..], h, n + 1, f, hash);
    }
  }

  /**
   * A chain that verifies, extended by an entry recording any other
   * previous hash, breaks at that new line.
   */
  lemma {:induction false} WalkAppendWrongPrevious(lines: seq<Line>, prev: string, n: nat, p: string, f: Fields, hash: (Fields, string) -> string)
    requires Walk(lines, prev, n, hash).Verified?
    requires p != LastHash(lines, prev)
    ensures Walk(lines + [Chained(f, p, hash)], prev, n, hash) == ChainBroken(n + |lines| + 1)
  {
    var next := Chained(f, p, hash);
    if lines == [] {
      assert [] + [next] == [next];
    } else {
      var h := lines[0].hash.text;
      assert (lines + [next])[1..] == lines[1..] + [next];
      WalkAppendWrongPrevious(lines[1..], h, n + 1, p, f, hash);
    }
  }

  /**
   * Verification fails exactly at the first bad line: the lines before it
   * verify on their own, and a verified prefix does not change the verdict
   * on what follows.
   */
  lemma {:induction false} WalkPrefix(lines: seq<Line>, prev: string, n: nat, k: nat, hash: (Fields, string) -> string)
    requires k <= |lines|
    requires Walk(lines[..k], prev, n, hash).Verified?
    ensures Walk(lines, prev, n, hash) == Walk(lines[k..], LastHash(lines[..k], prev), n + k, hash)
  {
    if k > 0 {
      var h := lines[0].hash.text;
      assert lines[..k][1..] == lines[1..][..k - 1];
      assert lines[1..][k - 1..] == lines[k..];
      WalkPrefix(lines[1..], h, n + 1, k - 1, hash);
    }
  }

  /**
   * Two loggers on one file: a log of verified entries, then an entry
   * written by a second logger, which starts again from the genesis hash,
   * breaks the chain at that entry.
   */
  lemma RestartBreaksChain(lines: seq<Line>, f: Fields, hash: (Fields, string) -> string)
    requires Walk(lines, GENESIS, 0, hash).Verified?
    requires LastHash(lines, GENESIS) != GENESIS
    ensures Check(Some(lines + [Chained(f, GENESIS, hash)]), hash) == ChainBroken(|lines| + 1)
  {
    var extended := lines + [Chained(f, GENESIS, hash)];
    WalkAppendWrongPrevious(lines, GENESIS, 0, GENESIS, f, hash);
    assert Walk(extended, GENESIS, 0, hash) == ChainBroken(|lines| + 1);
    assert Check(Some(extended), hash) == Walk(extended, GENESIS, 0, hash);
  }

  /** The smallest instance: one entry from a first logger, one from a second. */
  lemma SecondLoggerBreaksChain(f: Fields, g: Fields, hash: (Fields, string) -> string)
    requires hash(f, GENESIS) != GENESIS
    ensures Check(Some([Chained(f, GENESIS, hash), Chained(g, GENESIS, hash)]), hash) == ChainBroken(2)
  {
    var first := [Chained(f, GENESIS, hash)];
    assert Walk(first, GENESIS, 0, hash) == Verified(1) by {
      assert first[1..] == [];
    }
    RestartBreaksChain(first, g, hash);
    assert first + [Chained(g, GENESIS, hash)] == [Chained(f, GENESIS, hash), Chained(g, GENESIS, hash)];
  }

  /** AuditLogger over its file. */
  class AuditLogger {
    const hash: (Fields, string) -> string
    var previousHash: string
    /** The file's lines; None while the file does not exist. */
    var file: Option<seq<Line>>

    /** The file verifies and the next entry will continue its chain. */
    ghost predicate ChainIntact()
      reads this
    {
      match file
      case None => previousHash == GENESIS
      case Some(lines) => Walk(lines, GENESIS, 0, hash).Verified? && previousHash == LastHash(lines, GENESIS)
    }

    /**
     * AuditLogger(): the chain starts at the genesis hash whatever the file
     * already holds, so it is intact only for an absent or empty file.
     */
    constructor (hash: (Fields, string) -> string, file: Option<seq<Line>>)
      ensures this.hash == hash && this.file == file && previousHash == GENESIS
      ensures file.None? || file == Some([]) ==> ChainIntact()
    {
      this.hash := hash;
      this.file := file;
      previousHash := GENESIS;
    }

    /**
     * A logger that continues the chain of the file it opens: the next
     * entry records the hash of the last one. It keeps any file that
     * verifies intact.
     */
    constructor Resume(hash: (Fields, string) -> string, file: Option<seq<Line>>)
      ensures this.hash == hash && this.file == file
      ensures previousHash == if file.Some? then LastHash(file.value, GENESIS) else GENESIS
      ensures Accepted(Check(file, hash)) ==> ChainIntact()
    {
      this.hash := hash;
      this.file := file;
      previousHash := if file.Some? then LastHash(file.value, GENESIS) else GENESIS;
    }

    /**
     * log_action: appends the entry with the current previous hash and its
     * own hash, which becomes the previous hash of the next entry and is
     * returned. The timestamp is part of the fields given.
     */
    method LogAction(f: Fields) returns (h: string)
      modifies this
      ensures h == hash(f, old(previousHash)) && previousHash == h
      ensures file == Some((if old(file).Some? then old(file).value else []) + [Chained(f, old(previousHash), hash)])
      ensures old(ChainIntact()) ==> ChainIntact() && Check(file, hash) == Verified(|file.value|)
    {
      var lines := if file.Some? then file.value else [];
      var line := Chained(f, previousHash, hash);
      if ChainIntact() {
        assert Walk(lines, GENESIS, 0, hash).Verified?;
        WalkAppend(lines, GENESIS, 0, f, hash);
      }
      LastHashAppend(lines, GENESIS, line);
      file := Some(lines + [line]);
      h := line.hash.text;
      previousHash := h;
    }

    /** verify_integrity: the walk from the genesis hash, line by line. */
    method VerifyIntegrity() returns (v: Verdict)
      ensures v == Check(file, hash)
      ensures ChainIntact() ==> Accepted(v) && (v.Verified? ==> v.entries == |file.value|)
    {
      if file.None? {
        return NoLog;
      }
      var lines := file.value;
      var prev := GENESIS;
      var n := 0;
      while n < |lines|
        invariant 0 <= n <= |lines|
        invariant Walk(lines[n..], prev, n, hash) == Walk(lines, GENESIS, 0, hash)
      {
        assert lines[n..][1..] == lines[n + 1..];
        match lines[n]
        case Invalid =>
          return InvalidJson(n + 1);
        case NotObject =>
          return Raised(n + 1);
        case Parsed(f, ph, h) =>
          if ph != Some(prev) {
            return ChainBroken(n + 1);
          }
          match h
          case NoHash =>
            return Raised(n + 1);
          case NotText =>
            return HashMismatch(n + 1);
          case Hash(t) =>
            if hash(f, prev) != t {
              return HashMismatch(n + 1);
            }
            prev := t;
        n := n + 1;
      }
      return Verified(n);
    }
  }
}
