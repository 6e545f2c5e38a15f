/** The backup step the two in-place upgraders share: the model is copied to
    `idf_path + ".backup"` unless that file exists.  Files are a map from path
    to contents. */
module ModelFiles {
  /** `idf_path + ".backup"`. */
  function BackupPath(idfPath: string): string {
    idfPath + ".backup"
  }

  /** The backup path is never the model's own path. */
  lemma BackupPathDiffers(idfPath: string)
    ensures BackupPath(idfPath) != idfPath
  {
    assert |BackupPath(idfPath)| > |idfPath|;
  }

  /** The files after the backup step: a copy of the model at `backup`,
      made only when requested and no backup exists yet. */
  function WithBackup<T>(files: map<string, T>, model: string, backup: string, createBackup: bool): (r: map<string, T>)
    requires model in files && model != backup
    ensures model in r && r[model] == files[model]
    ensures backup in r <==> backup in files || createBackup
    ensures backup in files ==> r[backup] == files[backup]
    ensures backup !in files && createBackup ==> r[backup] == files[model]
    ensures r.Keys <= files.Keys + {backup}
    ensures forall f :: f in files && f != backup ==> f in r && r[f] == files[f]
  {
    if createBackup && backup !in files then files[backup := files[model]] else files
  }

  /** The write step: the rewritten contents replace the model when the
      rewrite found its line, and the result says whether it did. */
  function Store<T>(files: map<string, T>, model: string, rewrite: (bool, T)): (r: (bool, map<string, T>))
    ensures r.0 == rewrite.0
    ensures rewrite.0 ==> r.1 == files[model := rewrite.1]
    ensures !rewrite.0 ==> r.1 == files
  {
    if rewrite.0 then (true, files[model := rewrite.1]) else (false, files)
  }

  /** The backup step followed by the write step: the backup as the backup
      step leaves it, and no file but the model and the backup changed. */
  lemma StoreAfterBackup<T>(files: map<string, T>, model: string, backup: string, createBackup: bool, rewrite: (bool, T))
    requires model in files && model != backup
    ensures var after := Store(WithBackup(files, model, backup, createBackup), model, rewrite).1;
      && model in after
      && (backup in after <==> backup in files || createBackup)
      && (backup in files ==> after[backup] == files[backup])
      && (backup !in files && createBackup ==> after[backup] == files[model])
      && after.Keys == (if createBackup then files.Keys + {backup} else files.Keys)
      && forall f :: f in files && f != model && f != backup ==> after[f] == files[f]
  {
  }
}
