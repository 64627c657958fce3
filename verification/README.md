# Forensic CI monitor — a Dafny model

`agent/monitor.py` is a script that runs once per CI invocation. It records a
forensic snapshot of the repository it runs in and appends that snapshot as
one JSON line to `forensic_log.jsonl`. The snapshot holds:

- the time;
- the commit (`GITHUB_SHA`);
- the number of files listed under directories whose path does not contain
  ".git" or "__pycache__" as a substring. The test is on substrings, so
  `.github/` (the workflow's own directory) and names such as `x.git/` are
  skipped too;
- a SHA-256 fingerprint over the bytes of those of these files that can be
  read, in walk order;
- the SHA-256 of `.github/workflows/ci.yml` and of `requirements.txt`, each
  absent when the file cannot be read;
- the number of `- name:` step lines in the workflow, absent when the file
  cannot be read or decoded.

The model is split into these modules:

- `Text` (text.dfy): the Python string operations the script relies on.
  These are `str.strip` with Python's whitespace set, `startswith`, the
  substring test `in`, and `readlines()` with universal newlines.
- `Counting` (counting.dfy): counting the elements of a sequence that satisfy
  a predicate.
- `Files` (files.dfy): the file system, a map from path spelling to the bytes
  of every readable file.
- `WorkflowSteps` (workflow_steps.dfy): `count_workflow_steps`.
- `RepoWalk` (repo_walk.dfy): the `os.walk` triples, the exclusion test,
  `os.path.join`, and `count_files` as a loop proved against `FileCount`.
- `Fingerprint` (fingerprint.dfy): `file_hash`, and `repo_fingerprint` as a
  nested loop feeding a `HashContext` object. The loop is proved to feed
  exactly `FedBytes(walk, fs)`: the bytes of every readable kept file, in walk
  order.
- `ForensicLog` (forensic_log.dfy): the log file as an object whose text is
  appended to.
- `Monitor` (monitor.dfy): the script body, with `Collect` as the
  specification of the record and `Run` as the invocation.

The following are parameters of the model, not computed by it:

- SHA-256 (`sha256: Bytes -> string`, from bytes to hex digest);
- text decoding (`decode`);
- JSON serialisation (`dumps`);
- the clock and the environment variable (`Environment.now`,
  `Environment.githubSha`);
- the directory walk (`Environment.walk`).

## Model

| member | source | states |
|---|---|---|
| Files.ReadBytes | agent/monitor.py:14 | reading a path succeeds exactly when the path is in the file system |
| Fingerprint.FileHash | agent/monitor.py:12-17 | `None` exactly when the file cannot be read; otherwise the SHA-256 of all its bytes |
| Text.LStripSpec | agent/monitor.py:55 | `lstrip` removes a prefix made only of whitespace and leaves no leading whitespace |
| Text.RStripSpec | agent/monitor.py:55 | `rstrip` removes a suffix made only of whitespace and leaves no trailing whitespace |
| Text.ContainsIffOccurs | agent/monitor.py:26 | `sub in s` holds exactly when `sub` occurs at some index of `s` |
| Text.CharsOfContained | agent/monitor.py:26 | every character of a contained substring is a character of the string |
| Text.MissingCharNotContained | agent/monitor.py:26 | a string lacking one character of `sub` does not contain `sub` |
| Text.ContainsPrefixOfContained | agent/monitor.py:26 | a string containing `sub` contains every prefix of `sub` |
| Text.TranslateNewlines | agent/monitor.py:52-53 | universal-newline reading leaves no carriage return, never lengthens the text, and leaves text without "\r" exactly as it is |
| Text.TranslateNewlinesAppend | agent/monitor.py:52-53 | text that does not end in "\r" translates independently of what follows it |
| Text.TranslateNewlinesStep | agent/monitor.py:52-53 | "\r\n" and a lone "\r" each become one "\n", and every other character is kept as it is |
| Text.ReadLines | agent/monitor.py:52-53 | `readlines()` gives well-split lines which concatenate to the newline-translated text, and so, for text without "\r", back to the text itself |
| Text.Strip | agent/monitor.py:55 | `strip()` never lengthens a string, is empty exactly for a blank string, and otherwise starts and ends with a character that is not whitespace |
| Text.Contains | agent/monitor.py:26 | `sub in s`, as a scan from the left; its meaning is stated by `Text.ContainsIffOccurs` |
| Text.SplitLines | agent/monitor.py:53 | splitting after each "\n", the step of `readlines()` that follows newline translation, gives lines that concatenate back to the text, each ending in its only newline except possibly the last |
| Text.SplitLinesAppend | agent/monitor.py:53 | splitting text that ends at a line boundary and then more text is splitting each part and joining the results |
| Text.SplitOneLine | agent/monitor.py:80 | a newline-free entry followed by "\n" reads back as exactly one line |
| Counting.CountWhere | agent/monitor.py:55 | `sum(1 for x in xs if p(x))` is at most the number of elements |
| Counting.CountWhereIsIndexCount | agent/monitor.py:55 | the sum is the number of indices whose element satisfies `p` |
| Counting.CountWhereAppend | agent/monitor.py:55 | the sum over a concatenation is the sum of the sums |
| Counting.CountWhereZeroIff | agent/monitor.py:55 | the sum is zero exactly when no element satisfies `p` |
| Counting.CountWherePrefix | agent/monitor.py:55 | extending the prefix by one element adds one exactly when that element satisfies `p` |
| WorkflowSteps.IsStepLine | agent/monitor.py:55 | `line.strip().startswith("- name:")`; its meaning is stated by the whitespace lemmas below |
| WorkflowSteps.CountSteps | agent/monitor.py:55 | the step count is the number of line indices whose stripped line starts with "- name:", and is at most the number of lines |
| WorkflowSteps.CountStepsZeroIff | agent/monitor.py:55 | the count is zero exactly when no line is a step line |
| WorkflowSteps.CountStepsAppend | agent/monitor.py:55 | the count over concatenated line lists is the sum of the counts |
| WorkflowSteps.StepLineIgnoresTrailing | agent/monitor.py:55 | whether a line is a step line depends only on its left-stripped text |
| WorkflowSteps.LStripAppendSpace | agent/monitor.py:55 | left-stripping a line followed by whitespace keeps that whitespace unless the line is blank |
| WorkflowSteps.AllSpaceStrips | agent/monitor.py:55 | a line made only of whitespace strips to nothing |
| WorkflowSteps.TrailingWhitespaceIrrelevant | agent/monitor.py:55 | appending whitespace (a "\n" among it) never changes whether a line is a step |
| WorkflowSteps.LeadingWhitespaceIrrelevant | agent/monitor.py:55 | indentation never changes whether a line is a step |
| WorkflowSteps.IndentedLine | agent/monitor.py:53-55 | an indented line with its terminator is a step exactly when its text starts with "- name:" |
| WorkflowSteps.CountWorkflowSteps | agent/monitor.py:50-58 | `None` exactly when the file cannot be read or decoded; otherwise a count no larger than the number of lines read |
| WorkflowSteps.CountFiveLines | agent/monitor.py:55 | a five-line file with step lines at positions 2 and 4 counts 2 |
| WorkflowSteps.FiveLineExample | agent/monitor.py:53-55 | a workflow with two indented `- name:` items and other keys counts exactly 2 |
| RepoWalk.Excluded | agent/monitor.py:26 | `".git" in root or "__pycache__" in root`, a substring test on the whole root path |
| RepoWalk.Join | agent/monitor.py:29 | `os.path.join` keeps an absolute name; otherwise the path starts with the root and ends with the name, with one "/" between exactly when the root is non-empty and does not end in "/" |
| RepoWalk.FileCount | agent/monitor.py:41-44 | the files listed under kept roots never outnumber the files listed |
| RepoWalk.CountFiles | agent/monitor.py:39-45 | the loop's count equals `FileCount`, the files listed under non-excluded roots |
| RepoWalk.FileCountAppend | agent/monitor.py:41-44 | the count over two walks run one after the other is the sum of their counts |
| RepoWalk.FileCountBound | agent/monitor.py:41-44 | the count equals the number of listed files when no root is excluded |
| RepoWalk.ExcludedEntryCountsNothing | agent/monitor.py:42-43 | a triple under an excluded root adds nothing to the count, wherever it stands |
| RepoWalk.GithubDirectoriesExcluded | agent/monitor.py:42 | any root containing ".github" is excluded, since ".git" is a substring of it |
| RepoWalk.WorkflowDirectoryExcluded | agent/monitor.py:42 | "./.github/workflows" is excluded, so the workflow file is never counted |
| RepoWalk.FileNamesNeverTested | agent/monitor.py:42-44 | a top-level ".gitignore" is counted, because only roots are tested |
| Fingerprint.HashContext.constructor | agent/monitor.py:23 | a fresh `hashlib.sha256()` context has been fed nothing |
| Fingerprint.HashContext.HexDigest | agent/monitor.py:34 | `hexdigest()` is SHA-256 of everything fed so far, and reading it changes nothing |
| Fingerprint.HashContext.Update | agent/monitor.py:31 | an update appends the data after everything fed before |
| Fingerprint.EntryPaths | agent/monitor.py:25-29 | a triple offers one joined path per file, or none when its root is excluded |
| Fingerprint.ReadableChunks | agent/monitor.py:28-33 | unreadable files are skipped, so there are never more chunks than paths |
| Fingerprint.RepoFingerprint | agent/monitor.py:22-34 | the digest is SHA-256 of `FedBytes(walk, fs)`: every readable kept file's bytes, in walk order |
| Fingerprint.FeedEntry | agent/monitor.py:25-33 | the inner loop feeds the readable files of one kept triple after what was fed before |
| Fingerprint.KeptPathsMatchFileCount | agent/monitor.py:24-27 | the fingerprint tries exactly as many files as `count_files` counts |
| Fingerprint.KeptPathsAppend | agent/monitor.py:24-29 | the paths tried over two walks run one after the other are the two lists joined |
| Fingerprint.ChunksAppend | agent/monitor.py:28-33 | the bytes read for two path lists are the two results joined |
| Fingerprint.ChunksAllReadable | agent/monitor.py:28-31 | when every path can be read, each path yields exactly its file's bytes, in order |
| Fingerprint.AllReadableFeedsEveryFile | agent/monitor.py:22-34 | when every kept file can be read, one chunk is fed per counted file, in walk order |
| Fingerprint.UnreadableFileFeedsNothing | agent/monitor.py:32-33 | an unreadable file is skipped as if it were not listed |
| Fingerprint.ExcludedEntryFeedsNothing | agent/monitor.py:26-27 | a triple under an excluded root feeds nothing, wherever it stands |
| Fingerprint.ChunksAgree | agent/monitor.py:28-31 | the bytes read depend only on the files at the paths tried |
| Fingerprint.FingerprintIgnoresExcludedFiles | agent/monitor.py:22-34 | file systems that agree on the kept paths give the same fed bytes |
| Fingerprint.SingleFileFingerprint | agent/monitor.py:12-34 | for a walk of one readable file, the fingerprint equals that file's `file_hash` |
| Fingerprint.ExampleRoots | agent/monitor.py:26 | "./.git/objects" is excluded and "./src" and "." are not |
| Fingerprint.ExampleKeptPaths | agent/monitor.py:24-29 | a walk through ".git/objects" and "src" tries only "./src/main.txt" and counts one file |
| Fingerprint.GitObjectsExample | agent/monitor.py:22-45 | in that walk, the count is 1 and the bytes fed are exactly those of "./src/main.txt" |
| ForensicLog.LogFile.Missing | agent/monitor.py:79 | a log that does not exist yet is empty |
| ForensicLog.LogFile.Existing | agent/monitor.py:79 | an existing log holds any text, including one ending in a partial line |
| ForensicLog.LogFile.Append | agent/monitor.py:79-80 | a writable log gains exactly the entry and "\n" and keeps all it held. For a newline-free entry, a log ending at a line boundary gains one new line, and a log ending in a partial line has the entry glued onto that line. An unwritable log is untouched |
| ForensicLog.AppendAddsOneLine | agent/monitor.py:80 | appending a newline-free entry to a log ending at a line boundary keeps every existing line and adds exactly one |
| ForensicLog.AppendToPartialLine | agent/monitor.py:79-80 | appending to a log ending in a partial line keeps the earlier lines and turns the partial line into that fragment followed by the entry |
| ForensicLog.Render | agent/monitor.py:80 | the text written by any number of invocations ends at a line boundary |
| ForensicLog.AsLines | agent/monitor.py:80 | one log line per entry |
| ForensicLog.AppendingRecords | agent/monitor.py:79-80 | after n invocations on a log ending at a line boundary, the log holds its old lines unchanged, followed by the n entries in order, one line each |
| Monitor.Collect | agent/monitor.py:63-75 | each hash field is absent exactly when its file cannot be read; a step count implies a workflow hash; the file count never exceeds the listed files |
| Monitor.Run | agent/monitor.py:63-80 | the record written equals `Collect`, and the log gains exactly its serialisation and "\n" or is left as it was. With no newline in the serialisation, that is one new line, or a glued last line when the log ended in a partial line |
| Monitor.MissingWorkflow | agent/monitor.py:63-65 | without a readable workflow both the hash and the step count are absent |
| Monitor.UndecodableWorkflow | agent/monitor.py:63-65 | the hash is present and the count absent exactly when the workflow is readable but not decodable |
| Monitor.ReadableWorkflow | agent/monitor.py:63-65 | a readable, decodable workflow yields its digest and the count of its step lines |
| Monitor.FingerprintCoversCountedFiles | agent/monitor.py:70-71 | the fingerprint digests at most `file_count` files, and exactly that many when every kept file is readable |
| Monitor.RecordDependsOnlyOnReadFiles | agent/monitor.py:63-75 | the record depends on the file system only through the two named files and the files the fingerprint reads |

## Left out

- SHA-256 itself is the parameter `sha256`. `hashlib`'s incremental context is modelled by the bytes fed to it, so that its digest is `sha256` of their concatenation.
- `os.walk` is the input sequence of `(root, dirs, files)` triples. Its traversal order, the listing of directories, and its silencing of errors while listing are not modelled. `count_files` and `repo_fingerprint` each call it separately in the source; the model gives both the same walk, so changes to the tree between the two calls are not captured.
- File system paths are compared by spelling. "./.github/workflows/ci.yml", the path the walk produces, and ".github/workflows/ci.yml", the path `file_hash` opens, are different keys. A broken symbolic link, a missing permission and a failed read all collapse into "not readable"; a link to a readable file reads as that file.
- Text decoding with the locale's default encoding is the parameter `decode`. Windows-style newline translation on write is not modelled: "\n" is written as is.
- Monitor.Run: the log is not tied to the walked tree. `forensic_log.jsonl` is written to the working directory, the root "." that `os.walk(".")` walks and does not exclude, so from the second invocation on `count_files` counts the log and `repo_fingerprint` reads it as it stood before this invocation's append; the file count grows by one after the first run and the fingerprint changes on every run. The model does not relate `log.present` and `log.text` to the files listed under "." in `env.walk` or to `env.fs["./forensic_log.jsonl"]`, so the count and fingerprint it proves include the earlier log only when the caller supplies a walk and a file system that contain it.
- One unchanging file system serves every read of an invocation. The source opens the workflow file twice, once in `file_hash` and once in `count_workflow_steps`, and the tree is read again by the fingerprint; a file changed or removed between those reads is not modelled. `Monitor.Collect`'s promise that a step count implies a workflow hash rests on this single snapshot.
- `time.time()` is a `real` parameter and `os.getenv("GITHUB_SHA")` an optional string parameter.
- `json.dumps` is the parameter `dumps`. The line-count properties of `ForensicLog.LogFile.Append`, `Monitor.Run` and `ForensicLog.AppendingRecords` hold when the serialisation contains no "\n". This is true of `json.dumps` without `indent`, which escapes newlines inside strings, but it is not proved here.
- The two `print` calls at the end of the script are console output and are not modelled.
- Exceptions other than the ones the script catches are not modelled. An unwritable log is the `writable` flag; the script then stops, and the model leaves the log unchanged.
- Concurrent invocations appending to the same log are not modelled.
- The record's fingerprint field is never absent: `repo_fingerprint` has no failure path, because `os.walk` swallows listing errors and an empty walk yields the digest of empty input.
- A write to the log is whole or nothing. A write that fails after part of the line is flushed is not modelled. The partial last line such a write, or a run stopped mid-write, leaves behind is modelled: `ForensicLog.LogFile.Existing` accepts it, and `ForensicLog.AppendToPartialLine` states what the next append does to it.
- The inner loop of `repo_fingerprint` is the separate method `Fingerprint.FeedEntry`, called from the outer loop; it behaves exactly as the nested loop does.
