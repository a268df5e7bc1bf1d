/** Types shared by the enumerator, the placer and the translator. */
module Common {

  datatype Option<+T> = None | Some(value: T)

  /** A filesystem path, as the Python code handles it: a plain string. */
  type Path = string

  /** The `(file, target_dir, mode)` tuple that `list_all_files` builds and
      `move_dicom_file` / `write_to_zip` unpack. `mode` stays a string: the
      placer copies exactly when it equals "COPY" and renames otherwise. */
  datatype FileTask = FileTask(file: Path, targetDir: Path, mode: string)
}
