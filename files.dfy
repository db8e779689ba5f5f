/**
 * `minify_sql` of apollo_script_master/_asm/files.py: it hands the text to `SQL(sql).minify()`.
 * Its `hash_file_collection` is the one of module Checksum.
 */
module Files {
  import opened Text
  import Sql

  /** The delegate's result, with the shape `SQL.minify` guarantees. */
  function MinifySql(sql: string): (r: string)
    ensures r == Sql.Minify(sql)
    ensures NoOuterSpace(r) && NoChar(r, '/') && NoDoubleDash(r)
  {
    Sql.Minify(sql)
  }
}
