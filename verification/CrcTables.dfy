/**
 * The four lookup tables of the checksum functions, written as sixteen rows of
 * sixteen words, and the proof that every word is the right one.
 */
module CrcTables {
  import opened LookupTables
  import opened CrcWords

  const NORMAL_0: Sixteen<bv32> := Sixteen(
    0x00000000, 0x77073096, 0xEE0E612C, 0x990951BA, 0x076DC419, 0x706AF48F, 0xE963A535, 0x9E6495A3,
    0x0EDB8832, 0x79DCB8A4, 0xE0D5E91E, 0x97D2D988, 0x09B64C2B, 0x7EB17CBD, 0xE7B82D07, 0x90BF1D91)
  const NORMAL_1: Sixteen<bv32> := Sixteen(
    0x1DB71064, 0x6AB020F2, 0xF3B97148, 0x84BE41DE, 0x1ADAD47D, 0x6DDDE4EB, 0xF4D4B551, 0x83D385C7,
    0x136C9856, 0x646BA8C0, 0xFD62F97A, 0x8A65C9EC, 0x14015C4F, 0x63066CD9, 0xFA0F3D63, 0x8D080DF5)
  const NORMAL_2: Sixteen<bv32> := Sixteen(
    0x3B6E20C8, 0x4C69105E, 0xD56041E4, 0xA2677172, 0x3C03E4D1, 0x4B04D447, 0xD20D85FD, 0xA50AB56B,
    0x35B5A8FA, 0x42B2986C, 0xDBBBC9D6, 0xACBCF940, 0x32D86CE3, 0x45DF5C75, 0xDCD60DCF, 0xABD13D59)
  const NORMAL_3: Sixteen<bv32> := Sixteen(
    0x26D930AC, 0x51DE003A, 0xC8D75180, 0xBFD06116, 0x21B4F4B5, 0x56B3C423, 0xCFBA9599, 0xB8BDA50F,
    0x2802B89E, 0x5F058808, 0xC60CD9B2, 0xB10BE924, 0x2F6F7C87, 0x58684C11, 0xC1611DAB, 0xB6662D3D)
  const NORMAL_4: Sixteen<bv32> := Sixteen(
    0x76DC4190, 0x01DB7106, 0x98D220BC, 0xEFD5102A, 0x71B18589, 0x06B6B51F, 0x9FBFE4A5, 0xE8B8D433,
    0x7807C9A2, 0x0F00F934, 0x9609A88E, 0xE10E9818, 0x7F6A0DBB, 0x086D3D2D, 0x91646C97, 0xE6635C01)
  const NORMAL_5: Sixteen<bv32> := Sixteen(
    0x6B6B51F4, 0x1C6C6162, 0x856530D8, 0xF262004E, 0x6C0695ED, 0x1B01A57B, 0x8208F4C1, 0xF50FC457,
    0x65B0D9C6, 0x12B7E950, 0x8BBEB8EA, 0xFCB9887C, 0x62DD1DDF, 0x15DA2D49, 0x8CD37CF3, 0xFBD44C65)
  const NORMAL_6: Sixteen<bv32> := Sixteen(
    0x4DB26158, 0x3AB551CE, 0xA3BC0074, 0xD4BB30E2, 0x4ADFA541, 0x3DD895D7, 0xA4D1C46D, 0xD3D6F4FB,
    0x4369E96A, 0x346ED9FC, 0xAD678846, 0xDA60B8D0, 0x44042D73, 0x33031DE5, 0xAA0A4C5F, 0xDD0D7CC9)
  const NORMAL_7: Sixteen<bv32> := Sixteen(
    0x5005713C, 0x270241AA, 0xBE0B1010, 0xC90C2086, 0x5768B525, 0x206F85B3, 0xB966D409, 0xCE61E49F,
    0x5EDEF90E, 0x29D9C998, 0xB0D09822, 0xC7D7A8B4, 0x59B33D17, 0x2EB40D81, 0xB7BD5C3B, 0xC0BA6CAD)
  const NORMAL_8: Sixteen<bv32> := Sixteen(
    0xEDB88320, 0x9ABFB3B6, 0x03B6E20C, 0x74B1D29A, 0xEAD54739, 0x9DD277AF, 0x04DB2615, 0x73DC1683,
    0xE3630B12, 0x94643B84, 0x0D6D6A3E, 0x7A6A5AA8, 0xE40ECF0B, 0x9309FF9D, 0x0A00AE27, 0x7D079EB1)
  const NORMAL_9: Sixteen<bv32> := Sixteen(
    0xF00F9344, 0x8708A3D2, 0x1E01F268, 0x6906C2FE, 0xF762575D, 0x806567CB, 0x196C3671, 0x6E6B06E7,
    0xFED41B76, 0x89D32BE0, 0x10DA7A5A, 0x67DD4ACC, 0xF9B9DF6F, 0x8EBEEFF9, 0x17B7BE43, 0x60B08ED5)
  const NORMAL_A: Sixteen<bv32> := Sixteen(
    0xD6D6A3E8, 0xA1D1937E, 0x38D8C2C4, 0x4FDFF252, 0xD1BB67F1, 0xA6BC5767, 0x3FB506DD, 0x48B2364B,
    0xD80D2BDA, 0xAF0A1B4C, 0x36034AF6, 0x41047A60, 0xDF60EFC3, 0xA867DF55, 0x316E8EEF, 0x4669BE79)
  const NORMAL_B: Sixteen<bv32> := Sixteen(
    0xCB61B38C, 0xBC66831A, 0x256FD2A0, 0x5268E236, 0xCC0C7795, 0xBB0B4703, 0x220216B9, 0x5505262F,
    0xC5BA3BBE, 0xB2BD0B28, 0x2BB45A92, 0x5CB36A04, 0xC2D7FFA7, 0xB5D0CF31, 0x2CD99E8B, 0x5BDEAE1D)
  const NORMAL_C: Sixteen<bv32> := Sixteen(
    0x9B64C2B0, 0xEC63F226, 0x756AA39C, 0x026D930A, 0x9C0906A9, 0xEB0E363F, 0x72076785, 0x05005713,
    0x95BF4A82, 0xE2B87A14, 0x7BB12BAE, 0x0CB61B38, 0x92D28E9B, 0xE5D5BE0D, 0x7CDCEFB7, 0x0BDBDF21)
  const NORMAL_D: Sixteen<bv32> := Sixteen(
    0x86D3D2D4, 0xF1D4E242, 0x68DDB3F8, 0x1FDA836E, 0x81BE16CD, 0xF6B9265B, 0x6FB077E1, 0x18B74777,
    0x88085AE6, 0xFF0F6A70, 0x66063BCA, 0x11010B5C, 0x8F659EFF, 0xF862AE69, 0x616BFFD3, 0x166CCF45)
  const NORMAL_E: Sixteen<bv32> := Sixteen(
    0xA00AE278, 0xD70DD2EE, 0x4E048354, 0x3903B3C2, 0xA7672661, 0xD06016F7, 0x4969474D, 0x3E6E77DB,
    0xAED16A4A, 0xD9D65ADC, 0x40DF0B66, 0x37D83BF0, 0xA9BCAE53, 0xDEBB9EC5, 0x47B2CF7F, 0x30B5FFE9)
  const NORMAL_F: Sixteen<bv32> := Sixteen(
    0xBDBDF21C, 0xCABAC28A, 0x53B39330, 0x24B4A3A6, 0xBAD03605, 0xCDD70693, 0x54DE5729, 0x23D967BF,
    0xB3667A2E, 0xC4614AB8, 0x5D681B02, 0x2A6F2B94, 0xB40BBE37, 0xC30C8EA1, 0x5A05DF1B, 0x2D02EF8D)
  const NORMAL: Sixteen<Sixteen<bv32>> := Sixteen(
    NORMAL_0, NORMAL_1, NORMAL_2, NORMAL_3, NORMAL_4, NORMAL_5, NORMAL_6, NORMAL_7,
    NORMAL_8, NORMAL_9, NORMAL_A, NORMAL_B, NORMAL_C, NORMAL_D, NORMAL_E, NORMAL_F)

  const CASTAGNOLI_0: Sixteen<bv32> := Sixteen(
    0x00000000, 0xF26B8303, 0xE13B70F7, 0x1350F3F4, 0xC79A971F, 0x35F1141C, 0x26A1E7E8, 0xD4CA64EB,
    0x8AD958CF, 0x78B2DBCC, 0x6BE22838, 0x9989AB3B, 0x4D43CFD0, 0xBF284CD3, 0xAC78BF27, 0x5E133C24)
  const CASTAGNOLI_1: Sixteen<bv32> := Sixteen(
    0x105EC76F, 0xE235446C, 0xF165B798, 0x030E349B, 0xD7C45070, 0x25AFD373, 0x36FF2087, 0xC494A384,
    0x9A879FA0, 0x68EC1CA3, 0x7BBCEF57, 0x89D76C54, 0x5D1D08BF, 0xAF768BBC, 0xBC267848, 0x4E4DFB4B)
  const CASTAGNOLI_2: Sixteen<bv32> := Sixteen(
    0x20BD8EDE, 0xD2D60DDD, 0xC186FE29, 0x33ED7D2A, 0xE72719C1, 0x154C9AC2, 0x061C6936, 0xF477EA35,
    0xAA64D611, 0x580F5512, 0x4B5FA6E6, 0xB93425E5, 0x6DFE410E, 0x9F95C20D, 0x8CC531F9, 0x7EAEB2FA)
  const CASTAGNOLI_3: Sixteen<bv32> := Sixteen(
    0x30E349B1, 0xC288CAB2, 0xD1D83946, 0x23B3BA45, 0xF779DEAE, 0x05125DAD, 0x1642AE59, 0xE4292D5A,
    0xBA3A117E, 0x4851927D, 0x5B016189, 0xA96AE28A, 0x7DA08661, 0x8FCB0562, 0x9C9BF696, 0x6EF07595)
  const CASTAGNOLI_4: Sixteen<bv32> := Sixteen(
    0x417B1DBC, 0xB3109EBF, 0xA0406D4B, 0x522BEE48, 0x86E18AA3, 0x748A09A0, 0x67DAFA54, 0x95B17957,
    0xCBA24573, 0x39C9C670, 0x2A993584, 0xD8F2B687, 0x0C38D26C, 0xFE53516F, 0xED03A29B, 0x1F682198)
  const CASTAGNOLI_5: Sixteen<bv32> := Sixteen(
    0x5125DAD3, 0xA34E59D0, 0xB01EAA24, 0x42752927, 0x96BF4DCC, 0x64D4CECF, 0x77843D3B, 0x85EFBE38,
    0xDBFC821C, 0x2997011F, 0x3AC7F2EB, 0xC8AC71E8, 0x1C661503, 0xEE0D9600, 0xFD5D65F4, 0x0F36E6F7)
  const CASTAGNOLI_6: Sixteen<bv32> := Sixteen(
    0x61C69362, 0x93AD1061, 0x80FDE395, 0x72966096, 0xA65C047D, 0x5437877E, 0x4767748A, 0xB50CF789,
    0xEB1FCBAD, 0x197448AE, 0x0A24BB5A, 0xF84F3859, 0x2C855CB2, 0xDEEEDFB1, 0xCDBE2C45, 0x3FD5AF46)
  const CASTAGNOLI_7: Sixteen<bv32> := Sixteen(
    0x7198540D, 0x83F3D70E, 0x90A324FA, 0x62C8A7F9, 0xB602C312, 0x44694011, 0x5739B3E5, 0xA55230E6,
    0xFB410CC2, 0x092A8FC1, 0x1A7A7C35, 0xE811FF36, 0x3CDB9BDD, 0xCEB018DE, 0xDDE0EB2A, 0x2F8B6829)
  const CASTAGNOLI_8: Sixteen<bv32> := Sixteen(
    0x82F63B78, 0x709DB87B, 0x63CD4B8F, 0x91A6C88C, 0x456CAC67, 0xB7072F64, 0xA457DC90, 0x563C5F93,
    0x082F63B7, 0xFA44E0B4, 0xE9141340, 0x1B7F9043, 0xCFB5F4A8, 0x3DDE77AB, 0x2E8E845F, 0xDCE5075C)
  const CASTAGNOLI_9: Sixteen<bv32> := Sixteen(
    0x92A8FC17, 0x60C37F14, 0x73938CE0, 0x81F80FE3, 0x55326B08, 0xA759E80B, 0xB4091BFF, 0x466298FC,
    0x1871A4D8, 0xEA1A27DB, 0xF94AD42F, 0x0B21572C, 0xDFEB33C7, 0x2D80B0C4, 0x3ED04330, 0xCCBBC033)
  const CASTAGNOLI_A: Sixteen<bv32> := Sixteen(
    0xA24BB5A6, 0x502036A5, 0x4370C551, 0xB11B4652, 0x65D122B9, 0x97BAA1BA, 0x84EA524E, 0x7681D14D,
    0x2892ED69, 0xDAF96E6A, 0xC9A99D9E, 0x3BC21E9D, 0xEF087A76, 0x1D63F975, 0x0E330A81, 0xFC588982)
  const CASTAGNOLI_B: Sixteen<bv32> := Sixteen(
    0xB21572C9, 0x407EF1CA, 0x532E023E, 0xA145813D, 0x758FE5D6, 0x87E466D5, 0x94B49521, 0x66DF1622,
    0x38CC2A06, 0xCAA7A905, 0xD9F75AF1, 0x2B9CD9F2, 0xFF56BD19, 0x0D3D3E1A, 0x1E6DCDEE, 0xEC064EED)
  const CASTAGNOLI_C: Sixteen<bv32> := Sixteen(
    0xC38D26C4, 0x31E6A5C7, 0x22B65633, 0xD0DDD530, 0x0417B1DB, 0xF67C32D8, 0xE52CC12C, 0x1747422F,
    0x49547E0B, 0xBB3FFD08, 0xA86F0EFC, 0x5A048DFF, 0x8ECEE914, 0x7CA56A17, 0x6FF599E3, 0x9D9E1AE0)
  const CASTAGNOLI_D: Sixteen<bv32> := Sixteen(
    0xD3D3E1AB, 0x21B862A8, 0x32E8915C, 0xC083125F, 0x144976B4, 0xE622F5B7, 0xF5720643, 0x07198540,
    0x590AB964, 0xAB613A67, 0xB831C993, 0x4A5A4A90, 0x9E902E7B, 0x6CFBAD78, 0x7FAB5E8C, 0x8DC0DD8F)
  const CASTAGNOLI_E: Sixteen<bv32> := Sixteen(
    0xE330A81A, 0x115B2B19, 0x020BD8ED, 0xF0605BEE, 0x24AA3F05, 0xD6C1BC06, 0xC5914FF2, 0x37FACCF1,
    0x69E9F0D5, 0x9B8273D6, 0x88D28022, 0x7AB90321, 0xAE7367CA, 0x5C18E4C9, 0x4F48173D, 0xBD23943E)
  const CASTAGNOLI_F: Sixteen<bv32> := Sixteen(
    0xF36E6F75, 0x0105EC76, 0x12551F82, 0xE03E9C81, 0x34F4F86A, 0xC69F7B69, 0xD5CF889D, 0x27A40B9E,
    0x79B737BA, 0x8BDCB4B9, 0x988C474D, 0x6AE7C44E, 0xBE2DA0A5, 0x4C4623A6, 0x5F16D052, 0xAD7D5351)
  const CASTAGNOLI: Sixteen<Sixteen<bv32>> := Sixteen(
    CASTAGNOLI_0, CASTAGNOLI_1, CASTAGNOLI_2, CASTAGNOLI_3, CASTAGNOLI_4, CASTAGNOLI_5, CASTAGNOLI_6, CASTAGNOLI_7,
    CASTAGNOLI_8, CASTAGNOLI_9, CASTAGNOLI_A, CASTAGNOLI_B, CASTAGNOLI_C, CASTAGNOLI_D, CASTAGNOLI_E, CASTAGNOLI_F)

  const D_0: Sixteen<bv32> := Sixteen(
    0x00000000, 0x2BDDD04F, 0x57BBA09E, 0x7C6670D1, 0xAF77413C, 0x84AA9173, 0xF8CCE1A2, 0xD31131ED,
    0xF6DD1A53, 0xDD00CA1C, 0xA166BACD, 0x8ABB6A82, 0x59AA5B6F, 0x72778B20, 0x0E11FBF1, 0x25CC2BBE)
  const D_1: Sixteen<bv32> := Sixteen(
    0x4589AC8D, 0x6E547CC2, 0x12320C13, 0x39EFDC5C, 0xEAFEEDB1, 0xC1233DFE, 0xBD454D2F, 0x96989D60,
    0xB354B6DE, 0x98896691, 0xE4EF1640, 0xCF32C60F, 0x1C23F7E2, 0x37FE27AD, 0x4B98577C, 0x60458733)
  const D_2: Sixteen<bv32> := Sixteen(
    0x8B13591A, 0xA0CE8955, 0xDCA8F984, 0xF77529CB, 0x24641826, 0x0FB9C869, 0x73DFB8B8, 0x580268F7,
    0x7DCE4349, 0x56139306, 0x2A75E3D7, 0x01A83398, 0xD2B90275, 0xF964D23A, 0x8502A2EB, 0xAEDF72A4)
  const D_3: Sixteen<bv32> := Sixteen(
    0xCE9AF597, 0xE54725D8, 0x99215509, 0xB2FC8546, 0x61EDB4AB, 0x4A3064E4, 0x36561435, 0x1D8BC47A,
    0x3847EFC4, 0x139A3F8B, 0x6FFC4F5A, 0x44219F15, 0x9730AEF8, 0xBCED7EB7, 0xC08B0E66, 0xEB56DE29)
  const D_4: Sixteen<bv32> := Sixteen(
    0xBE152A1F, 0x95C8FA50, 0xE9AE8A81, 0xC2735ACE, 0x11626B23, 0x3ABFBB6C, 0x46D9CBBD, 0x6D041BF2,
    0x48C8304C, 0x6315E003, 0x1F7390D2, 0x34AE409D, 0xE7BF7170, 0xCC62A13F, 0xB004D1EE, 0x9BD901A1)
  const D_5: Sixteen<bv32> := Sixteen(
    0xFB9C8692, 0xD04156DD, 0xAC27260C, 0x87FAF643, 0x54EBC7AE, 0x7F3617E1, 0x03506730, 0x288DB77F,
    0x0D419CC1, 0x269C4C8E, 0x5AFA3C5F, 0x7127EC10, 0xA236DDFD, 0x89EB0DB2, 0xF58D7D63, 0xDE50AD2C)
  const D_6: Sixteen<bv32> := Sixteen(
    0x35067305, 0x1EDBA34A, 0x62BDD39B, 0x496003D4, 0x9A713239, 0xB1ACE276, 0xCDCA92A7, 0xE61742E8,
    0xC3DB6956, 0xE806B919, 0x9460C9C8, 0xBFBD1987, 0x6CAC286A, 0x4771F825, 0x3B1788F4, 0x10CA58BB)
  const D_7: Sixteen<bv32> := Sixteen(
    0x708FDF88, 0x5B520FC7, 0x27347F16, 0x0CE9AF59, 0xDFF89EB4, 0xF4254EFB, 0x88433E2A, 0xA39EEE65,
    0x8652C5DB, 0xAD8F1594, 0xD1E96545, 0xFA34B50A, 0x292584E7, 0x02F854A8, 0x7E9E2479, 0x5543F436)
  const D_8: Sixteen<bv32> := Sixteen(
    0xD419CC15, 0xFFC41C5A, 0x83A26C8B, 0xA87FBCC4, 0x7B6E8D29, 0x50B35D66, 0x2CD52DB7, 0x0708FDF8,
    0x22C4D646, 0x09190609, 0x757F76D8, 0x5EA2A697, 0x8DB3977A, 0xA66E4735, 0xDA0837E4, 0xF1D5E7AB)
  const D_9: Sixteen<bv32> := Sixteen(
    0x91906098, 0xBA4DB0D7, 0xC62BC006, 0xEDF61049, 0x3EE721A4, 0x153AF1EB, 0x695C813A, 0x42815175,
    0x674D7ACB, 0x4C90AA84, 0x30F6DA55, 0x1B2B0A1A, 0xC83A3BF7, 0xE3E7EBB8, 0x9F819B69, 0xB45C4B26)
  const D_A: Sixteen<bv32> := Sixteen(
    0x5F0A950F, 0x74D74540, 0x08B13591, 0x236CE5DE, 0xF07DD433, 0xDBA0047C, 0xA7C674AD, 0x8C1BA4E2,
    0xA9D78F5C, 0x820A5F13, 0xFE6C2FC2, 0xD5B1FF8D, 0x06A0CE60, 0x2D7D1E2F, 0x511B6EFE, 0x7AC6BEB1)
  const D_B: Sixteen<bv32> := Sixteen(
    0x1A833982, 0x315EE9CD, 0x4D38991C, 0x66E54953, 0xB5F478BE, 0x9E29A8F1, 0xE24FD820, 0xC992086F,
    0xEC5E23D1, 0xC783F39E, 0xBBE5834F, 0x90385300, 0x432962ED, 0x68F4B2A2, 0x1492C273, 0x3F4F123C)
  const D_C: Sixteen<bv32> := Sixteen(
    0x6A0CE60A, 0x41D13645, 0x3DB74694, 0x166A96DB, 0xC57BA736, 0xEEA67779, 0x92C007A8, 0xB91DD7E7,
    0x9CD1FC59, 0xB70C2C16, 0xCB6A5CC7, 0xE0B78C88, 0x33A6BD65, 0x187B6D2A, 0x641D1DFB, 0x4FC0CDB4)
  const D_D: Sixteen<bv32> := Sixteen(
    0x2F854A87, 0x04589AC8, 0x783EEA19, 0x53E33A56, 0x80F20BBB, 0xAB2FDBF4, 0xD749AB25, 0xFC947B6A,
    0xD95850D4, 0xF285809B, 0x8EE3F04A, 0xA53E2005, 0x762F11E8, 0x5DF2C1A7, 0x2194B176, 0x0A496139)
  const D_E: Sixteen<bv32> := Sixteen(
    0xE11FBF10, 0xCAC26F5F, 0xB6A41F8E, 0x9D79CFC1, 0x4E68FE2C, 0x65B52E63, 0x19D35EB2, 0x320E8EFD,
    0x17C2A543, 0x3C1F750C, 0x407905DD, 0x6BA4D592, 0xB8B5E47F, 0x93683430, 0xEF0E44E1, 0xC4D394AE)
  const D_F: Sixteen<bv32> := Sixteen(
    0xA496139D, 0x8F4BC3D2, 0xF32DB303, 0xD8F0634C, 0x0BE152A1, 0x203C82EE, 0x5C5AF23F, 0x77872270,
    0x524B09CE, 0x7996D981, 0x05F0A950, 0x2E2D791F, 0xFD3C48F2, 0xD6E198BD, 0xAA87E86C, 0x815A3823)
  const D: Sixteen<Sixteen<bv32>> := Sixteen(
    D_0, D_1, D_2, D_3, D_4, D_5, D_6, D_7,
    D_8, D_9, D_A, D_B, D_C, D_D, D_E, D_F)

  const Q_0: Sixteen<bv32> := Sixteen(
    0x00000000, 0x814141AB, 0x83C3C2FD, 0x02828356, 0x86C6C451, 0x078785FA, 0x050506AC, 0x84444707,
    0x8CCCC909, 0x0D8D88A2, 0x0F0F0BF4, 0x8E4E4A5F, 0x0A0A0D58, 0x8B4B4CF3, 0x89C9CFA5, 0x08888E0E)
  const Q_1: Sixteen<bv32> := Sixteen(
    0x98D8D3B9, 0x19999212, 0x1B1B1144, 0x9A5A50EF, 0x1E1E17E8, 0x9F5F5643, 0x9DDDD515, 0x1C9C94BE,
    0x14141AB0, 0x95555B1B, 0x97D7D84D, 0x169699E6, 0x92D2DEE1, 0x13939F4A, 0x11111C1C, 0x90505DB7)
  const Q_2: Sixteen<bv32> := Sixteen(
    0xB0F0E6D9, 0x31B1A772, 0x33332424, 0xB272658F, 0x36362288, 0xB7776323, 0xB5F5E075, 0x34B4A1DE,
    0x3C3C2FD0, 0xBD7D6E7B, 0xBFFFED2D, 0x3EBEAC86, 0xBAFAEB81, 0x3BBBAA2A, 0x3939297C, 0xB87868D7)
  const Q_3: Sixteen<bv32> := Sixteen(
    0x28283560, 0xA96974CB, 0xABEBF79D, 0x2AAAB636, 0xAEEEF131, 0x2FAFB09A, 0x2D2D33CC, 0xAC6C7267,
    0xA4E4FC69, 0x25A5BDC2, 0x27273E94, 0xA6667F3F, 0x22223838, 0xA3637993, 0xA1E1FAC5, 0x20A0BB6E)
  const Q_4: Sixteen<bv32> := Sixteen(
    0xE0A08C19, 0x61E1CDB2, 0x63634EE4, 0xE2220F4F, 0x66664848, 0xE72709E3, 0xE5A58AB5, 0x64E4CB1E,
    0x6C6C4510, 0xED2D04BB, 0xEFAF87ED, 0x6EEEC646, 0xEAAA8141, 0x6BEBC0EA, 0x696943BC, 0xE8280217)
  const Q_5: Sixteen<bv32> := Sixteen(
    0x78785FA0, 0xF9391E0B, 0xFBBB9D5D, 0x7AFADCF6, 0xFEBE9BF1, 0x7FFFDA5A, 0x7D7D590C, 0xFC3C18A7,
    0xF4B496A9, 0x75F5D702, 0x77775454, 0xF63615FF, 0x727252F8, 0xF3331353, 0xF1B19005, 0x70F0D1AE)
  const Q_6: Sixteen<bv32> := Sixteen(
    0x50506AC0, 0xD1112B6B, 0xD393A83D, 0x52D2E996, 0xD696AE91, 0x57D7EF3A, 0x55556C6C, 0xD4142DC7,
    0xDC9CA3C9, 0x5DDDE262, 0x5F5F6134, 0xDE1E209F, 0x5A5A6798, 0xDB1B2633, 0xD999A565, 0x58D8E4CE)
  const Q_7: Sixteen<bv32> := Sixteen(
    0xC888B979, 0x49C9F8D2, 0x4B4B7B84, 0xCA0A3A2F, 0x4E4E7D28, 0xCF0F3C83, 0xCD8DBFD5, 0x4CCCFE7E,
    0x44447070, 0xC50531DB, 0xC787B28D, 0x46C6F326, 0xC282B421, 0x43C3F58A, 0x414176DC, 0xC0003777)
  const Q_8: Sixteen<bv32> := Sixteen(
    0x40005999, 0xC1411832, 0xC3C39B64, 0x4282DACF, 0xC6C69DC8, 0x4787DC63, 0x45055F35, 0xC4441E9E,
    0xCCCC9090, 0x4D8DD13B, 0x4F0F526D, 0xCE4E13C6, 0x4A0A54C1, 0xCB4B156A, 0xC9C9963C, 0x4888D797)
  const Q_9: Sixteen<bv32> := Sixteen(
    0xD8D88A20, 0x5999CB8B, 0x5B1B48DD, 0xDA5A0976, 0x5E1E4E71, 0xDF5F0FDA, 0xDDDD8C8C, 0x5C9CCD27,
    0x54144329, 0xD5550282, 0xD7D781D4, 0x5696C07F, 0xD2D28778, 0x5393C6D3, 0x51114585, 0xD050042E)
  const Q_A: Sixteen<bv32> := Sixteen(
    0xF0F0BF40, 0x71B1FEEB, 0x73337DBD, 0xF2723C16, 0x76367B11, 0xF7773ABA, 0xF5F5B9EC, 0x74B4F847,
    0x7C3C7649, 0xFD7D37E2, 0xFFFFB4B4, 0x7EBEF51F, 0xFAFAB218, 0x7BBBF3B3, 0x793970E5, 0xF878314E)
  const Q_B: Sixteen<bv32> := Sixteen(
    0x68286CF9, 0xE9692D52, 0xEBEBAE04, 0x6AAAEFAF, 0xEEEEA8A8, 0x6FAFE903, 0x6D2D6A55, 0xEC6C2BFE,
    0xE4E4A5F0, 0x65A5E45B, 0x6727670D, 0xE66626A6, 0x622261A1, 0xE363200A, 0xE1E1A35C, 0x60A0E2F7)
  const Q_C: Sixteen<bv32> := Sixteen(
    0xA0A0D580, 0x21E1942B, 0x2363177D, 0xA22256D6, 0x266611D1, 0xA727507A, 0xA5A5D32C, 0x24E49287,
    0x2C6C1C89, 0xAD2D5D22, 0xAFAFDE74, 0x2EEE9FDF, 0xAAAAD8D8, 0x2BEB9973, 0x29691A25, 0xA8285B8E)
  const Q_D: Sixteen<bv32> := Sixteen(
    0x38780639, 0xB9394792, 0xBBBBC4C4, 0x3AFA856F, 0xBEBEC268, 0x3FFF83C3, 0x3D7D0095, 0xBC3C413E,
    0xB4B4CF30, 0x35F58E9B, 0x37770DCD, 0xB6364C66, 0x32720B61, 0xB3334ACA, 0xB1B1C99C, 0x30F08837)
  const Q_E: Sixteen<bv32> := Sixteen(
    0x10503359, 0x911172F2, 0x9393F1A4, 0x12D2B00F, 0x9696F708, 0x17D7B6A3, 0x155535F5, 0x9414745E,
    0x9C9CFA50, 0x1DDDBBFB, 0x1F5F38AD, 0x9E1E7906, 0x1A5A3E01, 0x9B1B7FAA, 0x9999FCFC, 0x18D8BD57)
  const Q_F: Sixteen<bv32> := Sixteen(
    0x8888E0E0, 0x09C9A14B, 0x0B4B221D, 0x8A0A63B6, 0x0E4E24B1, 0x8F0F651A, 0x8D8DE64C, 0x0CCCA7E7,
    0x044429E9, 0x85056842, 0x8787EB14, 0x06C6AABF, 0x8282EDB8, 0x03C3AC13, 0x01412F45, 0x80006EEE)
  const Q: Sixteen<Sixteen<bv32>> := Sixteen(
    Q_0, Q_1, Q_2, Q_3, Q_4, Q_5, Q_6, Q_7,
    Q_8, Q_9, Q_A, Q_B, Q_C, Q_D, Q_E, Q_F)

  lemma NormalLinear()
    ensures TableLinear(NORMAL)
  {
  }

  lemma NormalFirstRow()
    ensures NORMAL_0 == RightRow(0xEDB88320)
  {
  }

  lemma NormalColumnStart()
    ensures NORMAL.v0.v0 == EightRight(0xEDB88320, 0x00) && NORMAL.v1.v0 == EightRight(0xEDB88320, 0x10)
    ensures NORMAL.v2.v0 == EightRight(0xEDB88320, 0x20) && NORMAL.v3.v0 == EightRight(0xEDB88320, 0x30)
    ensures NORMAL.v4.v0 == EightRight(0xEDB88320, 0x40) && NORMAL.v5.v0 == EightRight(0xEDB88320, 0x50)
    ensures NORMAL.v6.v0 == EightRight(0xEDB88320, 0x60) && NORMAL.v7.v0 == EightRight(0xEDB88320, 0x70)
  {
  }

  lemma NormalColumnEnd()
    ensures NORMAL.v8.v0 == EightRight(0xEDB88320, 0x80) && NORMAL.v9.v0 == EightRight(0xEDB88320, 0x90)
    ensures NORMAL.v10.v0 == EightRight(0xEDB88320, 0xA0) && NORMAL.v11.v0 == EightRight(0xEDB88320, 0xB0)
    ensures NORMAL.v12.v0 == EightRight(0xEDB88320, 0xC0) && NORMAL.v13.v0 == EightRight(0xEDB88320, 0xD0)
    ensures NORMAL.v14.v0 == EightRight(0xEDB88320, 0xE0) && NORMAL.v15.v0 == EightRight(0xEDB88320, 0xF0)
  {
  }

  lemma NormalFirstColumn()
    ensures Column(NORMAL) == RightColumn(0xEDB88320)
  {
    NormalColumnStart();
    NormalColumnEnd();
  }

  lemma NormalIsRight()
    ensures TableRight(NORMAL, 0xEDB88320)
  {
    NormalLinear();
    NormalFirstRow();
    NormalFirstColumn();
  }

  lemma CastagnoliLinear()
    ensures TableLinear(CASTAGNOLI)
  {
  }

  lemma CastagnoliFirstRow()
    ensures CASTAGNOLI_0 == RightRow(0x82F63B78)
  {
  }

  lemma CastagnoliColumnStart()
    ensures CASTAGNOLI.v0.v0 == EightRight(0x82F63B78, 0x00) && CASTAGNOLI.v1.v0 == EightRight(0x82F63B78, 0x10)
    ensures CASTAGNOLI.v2.v0 == EightRight(0x82F63B78, 0x20) && CASTAGNOLI.v3.v0 == EightRight(0x82F63B78, 0x30)
    ensures CASTAGNOLI.v4.v0 == EightRight(0x82F63B78, 0x40) && CASTAGNOLI.v5.v0 == EightRight(0x82F63B78, 0x50)
    ensures CASTAGNOLI.v6.v0 == EightRight(0x82F63B78, 0x60) && CASTAGNOLI.v7.v0 == EightRight(0x82F63B78, 0x70)
  {
  }

  lemma CastagnoliColumnEnd()
    ensures CASTAGNOLI.v8.v0 == EightRight(0x82F63B78, 0x80) && CASTAGNOLI.v9.v0 == EightRight(0x82F63B78, 0x90)
    ensures CASTAGNOLI.v10.v0 == EightRight(0x82F63B78, 0xA0) && CASTAGNOLI.v11.v0 == EightRight(0x82F63B78, 0xB0)
    ensures CASTAGNOLI.v12.v0 == EightRight(0x82F63B78, 0xC0) && CASTAGNOLI.v13.v0 == EightRight(0x82F63B78, 0xD0)
    ensures CASTAGNOLI.v14.v0 == EightRight(0x82F63B78, 0xE0) && CASTAGNOLI.v15.v0 == EightRight(0x82F63B78, 0xF0)
  {
  }

  lemma CastagnoliFirstColumn()
    ensures Column(CASTAGNOLI) == RightColumn(0x82F63B78)
  {
    CastagnoliColumnStart();
    CastagnoliColumnEnd();
  }

  lemma CastagnoliIsRight()
    ensures TableRight(CASTAGNOLI, 0x82F63B78)
  {
    CastagnoliLinear();
    CastagnoliFirstRow();
    CastagnoliFirstColumn();
  }

  lemma DLinear()
    ensures TableLinear(D)
  {
  }

  lemma DFirstRow()
    ensures D_0 == RightRow(0xD419CC15)
  {
  }

  lemma DColumnStart()
    ensures D.v0.v0 == EightRight(0xD419CC15, 0x00) && D.v1.v0 == EightRight(0xD419CC15, 0x10)
    ensures D.v2.v0 == EightRight(0xD419CC15, 0x20) && D.v3.v0 == EightRight(0xD419CC15, 0x30)
    ensures D.v4.v0 == EightRight(0xD419CC15, 0x40) && D.v5.v0 == EightRight(0xD419CC15, 0x50)
    ensures D.v6.v0 == EightRight(0xD419CC15, 0x60) && D.v7.v0 == EightRight(0xD419CC15, 0x70)
  {
  }

  lemma DColumnEnd()
    ensures D.v8.v0 == EightRight(0xD419CC15, 0x80) && D.v9.v0 == EightRight(0xD419CC15, 0x90)
    ensures D.v10.v0 == EightRight(0xD419CC15, 0xA0) && D.v11.v0 == EightRight(0xD419CC15, 0xB0)
    ensures D.v12.v0 == EightRight(0xD419CC15, 0xC0) && D.v13.v0 == EightRight(0xD419CC15, 0xD0)
    ensures D.v14.v0 == EightRight(0xD419CC15, 0xE0) && D.v15.v0 == EightRight(0xD419CC15, 0xF0)
  {
  }

  lemma DFirstColumn()
    ensures Column(D) == RightColumn(0xD419CC15)
  {
    DColumnStart();
    DColumnEnd();
  }

  lemma DIsRight()
    ensures TableRight(D, 0xD419CC15)
  {
    DLinear();
    DFirstRow();
    DFirstColumn();
  }

  lemma QLinear()
    ensures TableLinear(Q)
  {
  }

  lemma QFirstRow()
    ensures Q_0 == LeftRow(0x814141AB)
  {
  }

  lemma QColumnStart()
    ensures Q.v0.v0 == EightLeft(0x814141AB, 0x00000000) && Q.v1.v0 == EightLeft(0x814141AB, 0x10000000)
    ensures Q.v2.v0 == EightLeft(0x814141AB, 0x20000000) && Q.v3.v0 == EightLeft(0x814141AB, 0x30000000)
    ensures Q.v4.v0 == EightLeft(0x814141AB, 0x40000000) && Q.v5.v0 == EightLeft(0x814141AB, 0x50000000)
    ensures Q.v6.v0 == EightLeft(0x814141AB, 0x60000000) && Q.v7.v0 == EightLeft(0x814141AB, 0x70000000)
  {
  }

  lemma QColumnEnd()
    ensures Q.v8.v0 == EightLeft(0x814141AB, 0x80000000) && Q.v9.v0 == EightLeft(0x814141AB, 0x90000000)
    ensures Q.v10.v0 == EightLeft(0x814141AB, 0xA0000000) && Q.v11.v0 == EightLeft(0x814141AB, 0xB0000000)
    ensures Q.v12.v0 == EightLeft(0x814141AB, 0xC0000000) && Q.v13.v0 == EightLeft(0x814141AB, 0xD0000000)
    ensures Q.v14.v0 == EightLeft(0x814141AB, 0xE0000000) && Q.v15.v0 == EightLeft(0x814141AB, 0xF0000000)
  {
  }

  lemma QFirstColumn()
    ensures Column(Q) == LeftColumn(0x814141AB)
  {
    QColumnStart();
    QColumnEnd();
  }

  lemma QIsLeft()
    ensures TableLeft(Q, 0x814141AB)
  {
    QLinear();
    QFirstRow();
    QFirstColumn();
  }
}
