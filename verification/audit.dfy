/**
  The lines printed by `apk audit --backup` and `apk audit --system`, as
  pmos_backup/state.py reads them: `<status> <path>`, split at the first
  space only, so the path may itself contain spaces.
*/
module Audit {
  import opened Wrappers
  import opened Text

  /** One audit line: a status letter and the path relative to `/`. */
  datatype ChangeRecord = ChangeRecord(status: string, path: string)

  /**
    `state, path = line.split(' ', maxsplit=1)`: None when the line has no
    space, which is where the unpacking raises ValueError.
  */
  function ParseAuditLine(line: string): (r: Option<ChangeRecord>)
    ensures r.None? <==> ' ' !in line
  {
    match SplitFirst(line, ' ')
    case None => None
    case Some(parts) => Some(ChangeRecord(parts.0, parts.1))
  }

  /** A parsed line is its status, one space and its path; the status holds no space. */
  lemma ParseAuditLineShape(line: string)
    ensures var r := ParseAuditLine(line);
      r.Some? ==> line == r.value.status + " " + r.value.path && ' ' !in r.value.status
  {
    SplitFirstShape(line, ' ');
  }

  /** Printing a record and parsing it back gives the record, spaces in the path included. */
  lemma ParsePrinted(status: string, path: string)
    requires ' ' !in status
    ensures ParseAuditLine(status + " " + path) == Some(ChangeRecord(status, path))
  {
    SplitFirstUnique(status + " " + path, ' ', status, path);
  }

  /** `state in ['A', 'U']`: only added and updated files are backed up. */
  predicate Actionable(rec: ChangeRecord) {
    rec.status == "A" || rec.status == "U"
  }

  /** The directory name that marks generated Python bytecode in the system audit. */
  const PyCacheMarker := "__pycache__"
}
