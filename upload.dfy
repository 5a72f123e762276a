/** The checks an image passes before it is previewed and sent: a chosen or
    dropped file (`handleFile`) must have an allowed type and size, a pasted
    image (`handlePastedImage`) only an allowed size. */
module Upload {
  import opened Text

  /** The `upload` part of the page's configuration. */
  datatype UploadConfig = UploadConfig(maxSizeMB: nat, allowedFormats: seq<string>)

  /** The configuration used when `config.json` cannot be loaded. */
  const DefaultUpload := UploadConfig(10, ["image/png", "image/jpeg", "image/jpg", "image/webp"])

  const InvalidFormat := "图片格式无效，请上传PNG/JPG格式的图片"

  datatype Verdict = Accepted | Rejected(message: string)

  /** `maxSizeMB * 1024 * 1024`, in bytes. */
  function MaxBytes(cfg: UploadConfig): nat
  {
    cfg.maxSizeMB * 1024 * 1024
  }

  function TooLarge(cfg: UploadConfig): string
  {
    "图片大小超过限制，请上传小于" + NatToString(cfg.maxSizeMB) + "MB的图片"
  }

  /** `handleFile`: the type is checked first, then the size. */
  function CheckFile(cfg: UploadConfig, fileType: string, size: nat): Verdict
  {
    if fileType !in cfg.allowedFormats then Rejected(InvalidFormat)
    else if size > MaxBytes(cfg) then Rejected(TooLarge(cfg))
    else Accepted
  }

  /** `handlePastedImage`: only the size is checked. */
  function CheckPasted(cfg: UploadConfig, size: nat): Verdict
  {
    if size > MaxBytes(cfg) then Rejected(TooLarge(cfg)) else Accepted
  }

  // ---------------------------------------------------------------- properties

  /** A file is taken exactly when its type is listed and its size is at most
      the limit. */
  lemma FileAccepted(cfg: UploadConfig, fileType: string, size: nat)
    ensures CheckFile(cfg, fileType, size) == Accepted
      <==> fileType in cfg.allowedFormats && size <= MaxBytes(cfg)
    ensures CheckFile(cfg, fileType, size).Rejected? ==>
      CheckFile(cfg, fileType, size).message in {InvalidFormat, TooLarge(cfg)}
  {
  }

  /** An unlisted type is reported as such whatever the size. */
  lemma TypeCheckedFirst(cfg: UploadConfig, fileType: string, size: nat)
    requires fileType !in cfg.allowedFormats
    ensures CheckFile(cfg, fileType, size) == Rejected(InvalidFormat)
  {
  }

  /** The limit itself is allowed; one byte more is not. */
  lemma SizeLimitInclusive(cfg: UploadConfig, fileType: string)
    requires fileType in cfg.allowedFormats
    ensures CheckFile(cfg, fileType, MaxBytes(cfg)) == Accepted
    ensures CheckFile(cfg, fileType, MaxBytes(cfg) + 1) == Rejected(TooLarge(cfg))
  {
  }

  /** A pasted image is judged by its size alone, as a chosen file of an
      allowed type would be. */
  lemma PastedSizeOnly(cfg: UploadConfig, fileType: string, size: nat)
    ensures CheckPasted(cfg, size) == Accepted <==> size <= MaxBytes(cfg)
    ensures fileType in cfg.allowedFormats ==> CheckPasted(cfg, size) == CheckFile(cfg, fileType, size)
  {
  }

  /** With the fallback configuration the limit is 10 MiB, the message names
      10MB, and of the common image types only GIF is refused. */
  lemma DefaultLimits(cfg: UploadConfig)
    requires cfg == DefaultUpload
    ensures MaxBytes(cfg) == 10485760
    ensures TooLarge(cfg) == "图片大小超过限制，请上传小于10MB的图片"
    ensures CheckFile(cfg, "image/webp", 10485760) == Accepted
    ensures CheckFile(cfg, "image/gif", 1) == Rejected(InvalidFormat)
  {
    assert NatToString(10) == "10";
    assert "image/gif" != "image/png" && "image/gif" != "image/jpeg";
    assert "image/gif" != "image/jpg" && "image/gif" != "image/webp";
  }
}
