/** The argument check on the document name. */
module Cli {
  import opened Wrappers
  import opened Strings

  /**
   * `valid_pdf_extension`: the name comes back unchanged when it ends in
   * ".pdf" (case-sensitive); otherwise argparse's ArgumentTypeError with
   * the message naming the file.
   */
  function ValidPdfExtension(name: string): (r: Result<string, string>)
    ensures r.Ok? <==> EndsWith(name, ".pdf")
    ensures r.Ok? ==> r.value == name
    ensures r.Err? ==> r.error == "Unknown file extension: " + name
  {
    if !EndsWith(name, ".pdf") then Err("Unknown file extension: " + name)
    else Ok(name)
  }

  /** Accepted exactly the names that are some stem followed by ".pdf". */
  lemma AcceptsExactlyPdfNames(name: string)
    ensures ValidPdfExtension(name).Ok? <==> exists stem :: name == stem + ".pdf"
  {
    if EndsWith(name, ".pdf") {
      var stem := name[..|name| - 4];
      assert name == stem + ".pdf";
    }
    if exists stem :: name == stem + ".pdf" {
      var stem :| name == stem + ".pdf";
      assert name[|name| - 4..] == ".pdf";
    }
  }

  /** Checking an accepted name again accepts it again. */
  lemma Idempotent(name: string)
    requires ValidPdfExtension(name).Ok?
    ensures ValidPdfExtension(ValidPdfExtension(name).value) == ValidPdfExtension(name)
  {
  }

  /** The test is case-sensitive: "report.PDF" is rejected. */
  lemma UpperCaseRejected()
    ensures ValidPdfExtension("report.PDF").Err?
    ensures ValidPdfExtension("report.pdf") == Ok("report.pdf")
  {
  }
}
